/** The level book over linked lists with cached best prices (internal/matching/level_book.go). The
    mirrored ask and bid code is one method each, told which side it works on. The two sides reuse
    the level maps of the heap book; their heaps stay unused. */
module LevelBook {
  import opened Basics
  import opened Orders
  import opened BookSpec
  import opened BookRuns
  import opened HeapModel
  import opened HeapRefinement
  import opened LevelList
  import opened LevelQueues
  import BookSide

  class LevelOrderBook {
    const asks: BookSide.BookSide
    const bids: BookSide.BookSide
    var byID: map<nat, Node>
    var bestAsk: int
    var bestBid: int
    var hasAsk: bool
    var hasBid: bool

    ghost var gone: set<nat>        // cancelled ids, whose index entries are never removed
    ghost var detached: set<Node>   // their nodes

    function Side(ask: bool): BookSide.BookSide {
      if ask then asks else bids
    }

    function Best(ask: bool): int
      reads `bestAsk, `bestBid
    {
      if ask then bestAsk else bestBid
    }

    function Has(ask: bool): bool
      reads `hasAsk, `hasBid
    {
      if ask then hasAsk else hasBid
    }

    method SetBest(ask: bool, has: bool, best: int)
      modifies `bestAsk, `bestBid, `hasAsk, `hasBid
      ensures Has(ask) == has && Best(ask) == best && Has(!ask) == old(Has(!ask)) && Best(!ask) == old(Best(!ask))
    {
      if ask {
        hasAsk, bestAsk := has, best;
      } else {
        hasBid, bestBid := has, best;
      }
    }

    ghost function Repr(): (r: set<object>)
      reads this, asks, bids
      ensures this in r && asks in r && bids in r
    {
      {this} + detached + asks.Repr() + bids.Repr()
    }

    ghost predicate Separate(x: BookSide.BookSide, y: BookSide.BookSide)
      reads `detached, x, y
    {
      x.Repr() !! y.Repr() && this !in x.Repr() + y.Repr() && detached !! x.nodes + y.nodes
    }

    /** The index maps the ids of the nodes ns to them, and cancelled ids to nodes that hang nowhere. */
    ghost predicate Indexes(ns: set<Node>)
      reads `byID, `gone, `detached, ns`order
    {
      && (forall n :: n in ns ==> n.order.id in byID && byID[n.order.id] == n && n.order.id !in gone)
      && (forall id :: id in byID && id !in gone ==> byID[id] in ns && byID[id].order.id == id)
      && (forall id :: id in gone ==> id in byID && byID[id] in detached)
    }

    /** Detached nodes have no neighbours and are no level's head, but still name a level of one side. */
    ghost predicate Loose(x: BookSide.BookSide, y: BookSide.BookSide)
      reads `detached, detached, x`owned, y`owned, x.owned`head, y.owned`head
    {
      forall n :: n in detached ==>
        n.prev == null && n.next == null && n.lv != null && n.lv in x.owned + y.owned && n.lv.head != n
    }

    ghost predicate Paired(x: BookSide.BookSide, y: BookSide.BookSide)
      reads this, x, y, detached, x.Repr(), y.Repr()
    {
      Separate(x, y) && x.LevelsValid() && y.LevelsValid() && Indexes(x.nodes + y.nodes) && Loose(x, y)
    }

    ghost predicate Valid()
      reads this, asks, bids, Repr()
    {
      asks.ask && !bids.ask && Paired(asks, bids)
    }

    lemma EitherFirst(ask: bool)
      requires asks.ask && !bids.ask
      ensures Paired(asks, bids) <==> Paired(Side(ask), Side(!ask))
    {
    }

    constructor ()
      ensures Holds(EMPTY) && fresh(Repr()) && byID == map[] && gone == {}
    {
      hide BookSide.BookSide.LevelsValid, BookSide.BookSide.HeapValid, BookSide.BookSide.Repr, Valid, Holds;
      asks := new BookSide.BookSide(true);
      bids := new BookSide.BookSide(false);
      byID, bestAsk, bestBid, hasAsk, hasBid, gone, detached := map[], 0, 0, false, false, {}, {};
      new;
      StartsValid();
      EmptyHolds();
    }

    lemma StartsValid()
      requires asks.ask && !bids.ask && asks.LevelsValid() && bids.LevelsValid() && byID == map[] && gone == {}
      requires asks.Repr() !! bids.Repr() && this !in asks.Repr() + bids.Repr() && detached == {}
      requires asks.nodes == {} == bids.nodes
      ensures Valid()
    {
      hide BookSide.BookSide.LevelsValid;
    }

    lemma EmptyHolds()
      requires Valid() && asks.queues == map[] && bids.queues == map[] && !hasAsk && !hasBid
      ensures Holds(EMPTY)
    {
      hide Valid;
    }

    // ---- resting -------------------------------------------------------------------------------

    /** The level of a price, opened if there is none. */
    method Open(x: BookSide.BookSide, y: BookSide.BookSide, p: int) returns (lv: Level)
      requires Paired(x, y)
      modifies x`levels, x`queues, x`owned
      ensures Paired(x, y) && p in x.levels && x.levels[p] == lv && lv in x.owned && lv.repr <= x.nodes
      ensures old(x.owned) <= x.owned && fresh(x.owned - old(x.owned)) && x.nodes == old(x.nodes)
      ensures x.queues == if p in old(x.queues) then old(x.queues) else old(x.queues)[p := []]
    {
      hide BookSide.BookSide.LevelsValid, Indexes;
      x.LevelKeys();
      if p in x.levels {
        lv := x.levels[p];
        x.LevelAt(p);
      } else {
        lv := x.AddLevel(p);
      }
    }

    method Link(x: BookSide.BookSide, y: BookSide.BookSide, lv: Level, n: Node)
      requires Paired(x, y) && n !in x.Repr() && n !in y.Repr() && n !in detached
      requires n.order.price in x.levels && x.levels[n.order.price] == lv && lv in x.owned && lv.repr <= x.nodes
      requires n.lv == lv && n.side == (if x.ask then SELL else BUY)
      modifies x`queues, x`nodes, lv, n`prev, n`next, lv.repr`next
      ensures Separate(x, y) && x.LevelsValid() && y.LevelsValid() && Loose(x, y)
      ensures x.nodes == old(x.nodes) + {n} && x.owned == old(x.owned) && Indexes(old(x.nodes) + y.nodes)
      ensures x.queues == old(x.queues)[n.order.price := Queue(old(x.queues), n.order.price) + [n.order]]
    {
      hide BookSide.BookSide.LevelsValid, Indexes;
      x.LevelKeys();
      x.Append(lv, n);
      x.HeadIn(n.order.price);
    }

    method NewNode(x: BookSide.BookSide, y: BookSide.BookSide, o: Order, lv: Level, side: int) returns (n: Node)
      requires Paired(x, y)
      ensures fresh(n) && n.order == o && n.lv == lv && n.side == side
      ensures Paired(x, y) && n !in x.Repr() && n !in y.Repr() && n !in detached
    {
      hide BookSide.BookSide.LevelsValid, Indexes, Loose;
      n := new Node(o, lv, side);
    }

    /** Hangs a node behind the tail of its level and indexes it. */
    method Hang(x: BookSide.BookSide, y: BookSide.BookSide, lv: Level, n: Node)
      requires Paired(x, y) && n !in x.Repr() && n !in y.Repr() && n !in detached && n.order.id !in byID
      requires n.order.price in x.levels && x.levels[n.order.price] == lv && lv in x.owned && lv.repr <= x.nodes
      requires n.lv == lv && n.side == (if x.ask then SELL else BUY)
      modifies `byID, x`queues, x`nodes, lv, n`prev, n`next, lv.repr`next
      ensures Paired(x, y) && x.owned == old(x.owned) && x.nodes == old(x.nodes) + {n}
      ensures x.queues == Appended(old(x.queues), n.order)
      ensures byID.Keys == old(byID.Keys) + {n.order.id}
    {
      hide BookSide.BookSide.LevelsValid, Loose, Indexes;
      Link(x, y, lv, n);
      Enter(old(x.nodes) + y.nodes, n);
      assert x.nodes + y.nodes == old(x.nodes) + y.nodes + {n};
    }

    method Enter(ghost ns: set<Node>, n: Node)
      requires Indexes(ns) && n.order.id !in byID
      modifies `byID
      ensures Indexes(ns + {n}) && byID == old(byID)[n.order.id := n]
    {
      byID := byID[n.order.id := n];
    }

    method Forget(ghost ns: set<Node>, n: Node)
      requires n !in ns && Indexes(ns + {n})
      modifies `byID
      ensures Indexes(ns) && byID == old(byID) - {n.order.id}
    {
      byID := byID - {n.order.id};
    }

    ghost method Retire(ns: set<Node>, n: Node)
      requires n !in ns && Indexes(ns + {n})
      modifies `gone, `detached
      ensures Indexes(ns) && gone == old(gone) + {n.order.id} && detached == old(detached) + {n}
    {
      gone, detached := gone + {n.order.id}, detached + {n};
    }

    lemma PairedApart(x: BookSide.BookSide, y: BookSide.BookSide)
      requires Paired(x, y)
      ensures x.Repr() !! y.Repr() && this !in x.Repr() + y.Repr() && x != y
    {
      hide BookSide.BookSide.LevelsValid, Indexes, Loose;
    }

    method RestOn(x: BookSide.BookSide, y: BookSide.BookSide, o: Order)
      requires Paired(x, y) && o.id !in byID
      modifies `byID, x.Repr()
      ensures Paired(x, y) && fresh(x.Repr() - old(x.Repr()))
      ensures x.queues == Appended(old(x.queues), o) && byID.Keys == old(byID.Keys) + {o.id}
      ensures y.queues == old(y.queues) && y.Repr() == old(y.Repr())
    {
      hide Paired, Appended, Queue;
      PairedApart(x, y);
      OpenedAppends(x.queues, o);
      var lv := Open(x, y, o.price);
      var n := NewNode(x, y, o, lv, if x.ask then SELL else BUY);
      Hang(x, y, lv, n);
    }

    // ---- unlinking -----------------------------------------------------------------------------

    /** Takes a node off its level; the index does not know yet. */
    method TakeOff(x: BookSide.BookSide, y: BookSide.BookSide, n: Node) returns (ghost k: nat)
      requires Paired(x, y) && n in x.nodes
      modifies x`queues, x`nodes, x.owned, x.nodes`prev, x.nodes`next
      ensures Separate(x, y) && x.LevelsValid() && y.LevelsValid() && Loose(x, y)
      ensures n !in x.nodes + y.nodes && Indexes(x.nodes + y.nodes + {n})
      ensures x.nodes == old(x.nodes) - {n} && n.prev == null && n.next == null
      ensures n.lv == old(n.lv) && n.lv != null && n.lv in x.owned && n.lv.price == n.order.price && n.lv.head != n
      ensures old(n.lv.head) == n ==> k == 0
      ensures var p := n.order.price;
              && p in old(x.queues) && k < |old(x.queues)[p]| && old(x.queues)[p][k] == n.order
              && x.queues == old(x.queues)[p := Without(old(x.queues)[p], k)]
              && p in x.levels && x.levels[p] == n.lv && n.lv.size == |x.queues[p]|
    {
      hide BookSide.BookSide.LevelsValid, Indexes;
      x.PlacedIn(n);
      k := x.Unlink(n);
      x.LevelQueue(n.lv.price);
      x.HeadIn(n.lv.price);
      assert x.nodes + y.nodes + {n} == old(x.nodes + y.nodes);
    }

    method DropLevel(x: BookSide.BookSide, y: BookSide.BookSide, p: int)
      requires Paired(x, y) && Queue(x.queues, p) == []
      modifies x`levels, x`queues
      ensures Paired(x, y) && x.levels == old(x.levels) - {p} && x.queues == old(x.queues) - {p}
    {
      hide BookSide.BookSide.LevelsValid, Indexes;
      x.DropLevel(p);
    }

    /** A filled maker leaves its level and the index. */
    method RemoveFilled(x: BookSide.BookSide, y: BookSide.BookSide, n: Node)
      requires Paired(x, y) && n in x.nodes && n.lv != null && n.lv.head == n
      modifies `byID, x`queues, x`nodes, x.owned, x.nodes`prev, x.nodes`next
      ensures Paired(x, y) && x.levels == old(x.levels) && x.owned == old(x.owned) && x.nodes == old(x.nodes) - {n}
      ensures var p := old(n.order.price);
              && Queue(old(x.queues), p) != [] && x.queues == old(x.queues)[p := old(x.queues)[p][1..]]
              && byID == old(byID) - {old(x.queues)[p][0].id}
    {
      hide BookSide.BookSide.LevelsValid, Loose, Indexes, BookSide.BookSide.Repr;
      ghost var k := TakeOff(x, y, n);
      assert Without(old(x.queues)[n.order.price], 0) == old(x.queues)[n.order.price][1..];
      Forget(x.nodes + y.nodes, n);
    }

    /** A cancelled order leaves its level; its index entry stays. */
    method Detach(x: BookSide.BookSide, y: BookSide.BookSide, n: Node) returns (ghost k: nat)
      requires Paired(x, y) && n in x.nodes
      modifies `gone, `detached, x`queues, x`nodes, x.owned, x.nodes`prev, x.nodes`next
      ensures Paired(x, y) && x.levels == old(x.levels) && x.owned == old(x.owned)
      ensures gone == old(gone) + {n.order.id} && detached == old(detached) + {n} && x.nodes == old(x.nodes) - {n}
      ensures n.lv == old(n.lv) && n.lv != null && n.lv.price == n.order.price
      ensures var p := n.order.price;
              && p in old(x.queues) && k < |old(x.queues)[p]| && old(x.queues)[p][k] == n.order
              && x.queues == old(x.queues)[p := Without(old(x.queues)[p], k)]
              && n.lv.size == |x.queues[p]|
    {
      hide BookSide.BookSide.LevelsValid, BookSide.BookSide.Repr, Indexes, Without;
      k := TakeOff(x, y, n);
      Retire(x.nodes + y.nodes, n);
    }

    // ---- the best price ------------------------------------------------------------------------

    /** What a scan over the levels' sizes finds. */
    ghost predicate SizesScanned(ask: bool)
      reads this, Side(ask), Side(ask).levels.Values
    {
      var levels := Side(ask).levels;
      && (Has(ask) ==> Best(ask) in levels && levels[Best(ask)].size != 0)
      && (forall p :: p in levels && levels[p].size != 0 ==> Has(ask) && !Better(ask, p, Best(ask)))
    }

    /** Scans the non-empty levels for the best price. */
    method Recompute(ask: bool)
      modifies `bestAsk, `bestBid, `hasAsk, `hasBid
      ensures SizesScanned(ask) && Has(!ask) == old(Has(!ask)) && Best(!ask) == old(Best(!ask))
    {
      var levels := Side(ask).levels;
      var rest, found, p := levels.Keys, false, 0;
      while rest != {}
        invariant rest <= levels.Keys && Has(!ask) == old(Has(!ask)) && Best(!ask) == old(Best(!ask))
        invariant found ==> p in levels && p !in rest && levels[p].size != 0
        invariant forall r :: r in levels && r !in rest && levels[r].size != 0 ==> found && !Better(ask, r, p)
      {
        var r := AnyOf(rest);
        rest := rest - {r};
        if levels[r].size == 0 {
          continue;
        }
        if !found || Better(ask, r, p) {
          p, found := r, true;
        }
      }
      if !found {
        SetBest(ask, false, 0);
      } else {
        SetBest(ask, true, p);
      }
    }

    lemma SizesAreQueues(ask: bool)
      requires Side(ask).LevelsValid() && SizesScanned(ask)
      ensures Scanned(ask, Side(ask).queues, Has(ask), Best(ask))
    {
      var x := Side(ask);
      x.LevelKeys();
      forall p | p in x.levels
        ensures x.levels[p].size == |x.queues[p]|
      {
        x.LevelQueue(p);
      }
      hide BookSide.BookSide.LevelsValid;
    }

    /** The scan changes nothing but the cache of its side. */
    method Refresh(ask: bool, x: BookSide.BookSide, y: BookSide.BookSide)
      requires Paired(x, y) && x == Side(ask)
      modifies `bestAsk, `bestBid, `hasAsk, `hasBid
      ensures Paired(x, y) && Scanned(ask, x.queues, Has(ask), Best(ask))
      ensures Has(!ask) == old(Has(!ask)) && Best(!ask) == old(Best(!ask))
    {
      hide BookSide.BookSide.LevelsValid, Indexes, Loose, Scanned;
      Recompute(ask);
      SizesAreQueues(ask);
    }

    // ---- matching ------------------------------------------------------------------------------

    method Reduce(x: BookSide.BookSide, y: BookSide.BookSide, lv: Level, exec: int)
      requires Paired(x, y) && lv.price in x.levels && x.levels[lv.price] == lv && Queue(x.queues, lv.price) != []
      requires lv in x.owned && lv.head != null && lv.head in x.nodes
      modifies x`queues, lv`queue, lv.head`order
      ensures Paired(x, y)
      ensures var q := Queue(old(x.queues), lv.price);
              x.queues == old(x.queues)[lv.price := [q[0].(qty := q[0].qty - exec)] + q[1..]]
    {
      hide BookSide.BookSide.LevelsValid, Loose;
      x.LevelKeys();
      x.ReduceHead(lv, exec);
    }

    lemma HeadAt(x: BookSide.BookSide, y: BookSide.BookSide, p: int)
      requires Paired(x, y) && p in x.levels
      ensures var lv := x.levels[p];
              && lv in x.owned && lv.price == p && p in x.queues && lv.size == |x.queues[p]|
              && (lv.size > 0 ==> lv.head != null && lv.head in x.nodes && lv.head.lv == lv
                                  && lv.head.order == x.queues[p][0] && lv.head.order.price == p)
    {
      hide BookSide.BookSide.LevelsValid, Indexes, Loose;
      x.LevelAt(p);
      x.LevelQueue(p);
      if x.levels[p].size > 0 {
        x.HeadOf(p);
        x.PlacedIn(x.levels[p].head);
      }
    }

    /** One execution against the head of a level. */
    method FillOne(x: BookSide.BookSide, y: BookSide.BookSide, lv: Level, taker: Order, qty: int) returns (t: Trade)
      requires Paired(x, y) && lv.price in x.levels && x.levels[lv.price] == lv && lv.size > 0
      modifies `byID, x`queues, x`nodes, x.owned, x.nodes
      ensures Paired(x, y) && x.levels == old(x.levels) && x.owned == old(x.owned) && x.nodes <= old(x.nodes)
      ensures var q := Queue(old(x.queues), lv.price);
              && q != [] && q[0].price == lv.price
              && t == Trade(taker.id, q[0].id, q[0].price, Min(qty, q[0].qty))
              && x.queues == old(x.queues)[lv.price := AfterTurn(q, t.qty)]
              && byID.Keys == old(byID.Keys) - (if t.qty == q[0].qty then {q[0].id} else {})
    {
      hide Paired;
      HeadAt(x, y, lv.price);
      var mn := lv.head;
      var maker := mn.order;
      var exec := Min(qty, maker.qty);
      t := Trade(taker.id, maker.id, lv.price, exec);
      if maker.qty - exec == 0 {
        RemoveFilled(x, y, mn);
      } else {
        Reduce(x, y, lv, exec);
      }
    }

    // ---- the book --------------------------------------------------------------------------------

    /** The cached best prices are what a full scan finds, and no level is empty. */
    ghost predicate Cached(ask: bool)
      reads this, Side(ask)
    {
      Scanned(ask, Side(ask).queues, Has(ask), Best(ask)) && Tidy(Side(ask).queues)
    }

    /** The book stands for the reference book b. */
    ghost predicate Holds(b: Book)
      reads this, asks, bids, Repr()
    {
      && Valid() && b.Sound() && Cached(true) && Cached(false)
      && Rel(true, asks.queues, b.asks) && Rel(false, bids.queues, b.bids)
    }

    /** Fills the taker level by level. The branch that repairs a stale best price is never taken. */
    method MatchSide(ask: bool, taker: Order, ghost s0: seq<Order>)
      returns (trades: seq<Trade>, rest: int, ghost s: seq<Order>)
      requires Valid() && Cached(ask) && Rel(ask, Side(ask).queues, s0) && Positive(s0) && taker.qty > 0
      modifies `byID, `bestAsk, `bestBid, `hasAsk, `hasBid, Side(ask)`levels, Side(ask)`queues, Side(ask)`nodes
      modifies Side(ask).owned, Side(ask).nodes
      ensures Valid() && Cached(ask) && Rel(ask, Side(ask).queues, s) && rest >= 0
      ensures Match(trades, rest, s) == MatchQueue(ask, taker.id, taker.price, taker.qty, s0)
      ensures Has(!ask) == old(Has(!ask)) && Best(!ask) == old(Best(!ask)) && byID.Keys <= old(byID.Keys)
      ensures Side(ask).nodes <= old(Side(ask).nodes) && Side(ask).owned == old(Side(ask).owned)
    {
      hide Valid, Paired, Rel, Scanned, MatchQueue, Positive, AfterTurn, Stocked, Eating;
      trades, rest, s := [], taker.qty, s0;
      ghost var goal := MatchQueue(ask, taker.id, taker.price, taker.qty, s0);
      OntoNothing(goal);
      while rest > 0
        invariant Valid() && Cached(ask) && Rel(ask, Side(ask).queues, s) && Positive(s) && rest >= 0
        invariant goal == Onto(trades, MatchQueue(ask, taker.id, taker.price, rest, s))
        invariant Has(!ask) == old(Has(!ask)) && Best(!ask) == old(Best(!ask)) && byID.Keys <= old(byID.Keys)
        invariant Side(ask).nodes <= old(Side(ask).nodes) && Side(ask).owned == old(Side(ask).owned)
        decreases rest
      {
        CachedIsFirst(ask, s);
        if !Has(ask) || !Crosses(ask, Best(ask), taker.price) {
          break;
        }
        BestIsThere(ask, s);
        var p := Best(ask);
        if p !in Side(ask).levels || Side(ask).levels[p].Empty() {
          assert false;
        }
        var more, left, s' := MatchLevel(ask, p, taker, rest, s);
        GoesOn(goal, trades, more, MatchQueue(ask, taker.id, taker.price, left, s'));
        trades, rest, s := trades + more, left, s';
      }
      MatchStops(ask, taker, rest, s, trades);
    }

    lemma CachedIsFirst(ask: bool, s: seq<Order>)
      requires Cached(ask) && Rel(ask, Side(ask).queues, s)
      ensures Stocked(ask, Side(ask).queues, s) && Has(ask) == (s != []) && (Has(ask) ==> Best(ask) == s[0].price)
    {
      ScanIsFirst(ask, Side(ask).queues, Has(ask), Best(ask), s);
    }

    lemma BestIsThere(ask: bool, s: seq<Order>)
      requires Valid() && Stocked(ask, Side(ask).queues, s) && s != []
      ensures s[0].price in Side(ask).levels && Side(ask).levels[s[0].price].size > 0
    {
      EitherFirst(ask);
      hide BookSide.BookSide.LevelsValid, Indexes, Loose;
      StartEating(ask, Side(ask).queues, s);
      Side(ask).LevelKeys();
      HeadAt(Side(ask), Side(!ask), s[0].price);
    }

    /** One turn against the best level. */
    method EatTurn(ask: bool, x: BookSide.BookSide, y: BookSide.BookSide, lv: Level, taker: Order, rest: int,
                   ghost s: seq<Order>, ghost trades: seq<Trade>)
      returns (t: Trade)
      requires Paired(x, y) && lv.price in x.levels && x.levels[lv.price] == lv && lv.size > 0
      requires Eating(ask, x.queues, s, lv.price) && Positive(s) && rest > 0 && Crosses(ask, lv.price, taker.price)
      modifies `byID, x`queues, x`nodes, x.owned, x.nodes
      ensures Paired(x, y) && x.levels == old(x.levels) && x.owned == old(x.owned) && x.nodes <= old(x.nodes)
      ensures lv.price in x.queues && lv.size == |x.queues[lv.price]| && byID.Keys <= old(byID.Keys)
      ensures s != [] && 0 < t.qty <= rest
      ensures var s' := AfterTurn(s, t.qty);
              && Eating(ask, x.queues, s', lv.price) && Positive(s')
              && Onto(trades, MatchQueue(ask, taker.id, taker.price, rest, s))
                 == Onto(trades + [t], MatchQueue(ask, taker.id, taker.price, rest - t.qty, s'))
    {
      hide Paired, MatchQueue, Positive, AfterTurn, Eating, Onto, BookSide.BookSide.Repr;
      HeadAt(x, y, lv.price);
      ghost var before := x.queues;
      EatingThere(ask, before, s, lv.price);
      BestHead(ask, before, s, lv.price);
      t := FillOne(x, y, lv, taker, rest);
      MatchOne(ask, taker.id, taker.price, rest, s, trades);
      TurnEats(ask, before, s, lv.price, t.qty);
      TurnPositive(s, t.qty);
      HeadAt(x, y, lv.price);
    }

    /** Executes against the best level until the taker is filled or the level is empty, and then
        deletes it and scans for the next best. */
    method MatchLevel(ask: bool, p: int, taker: Order, qty: int, ghost s0: seq<Order>)
      returns (trades: seq<Trade>, rest: int, ghost s: seq<Order>)
      requires Valid() && Cached(ask) && Rel(ask, Side(ask).queues, s0) && Positive(s0) && qty > 0
      requires s0 != [] && p == s0[0].price && Crosses(ask, p, taker.price) && Has(ask) && Best(ask) == p
      modifies `byID, `bestAsk, `bestBid, `hasAsk, `hasBid, Side(ask)`levels, Side(ask)`queues, Side(ask)`nodes
      modifies Side(ask).owned, Side(ask).nodes
      ensures Valid() && Cached(ask) && Rel(ask, Side(ask).queues, s) && Positive(s) && 0 <= rest < qty
      ensures MatchQueue(ask, taker.id, taker.price, qty, s0)
              == Onto(trades, MatchQueue(ask, taker.id, taker.price, rest, s))
      ensures Has(!ask) == old(Has(!ask)) && Best(!ask) == old(Best(!ask)) && byID.Keys <= old(byID.Keys)
      ensures Side(ask).nodes <= old(Side(ask).nodes) && Side(ask).owned == old(Side(ask).owned)
    {
      hide Valid, Paired, Rel, Scanned, MatchQueue, Positive, AfterTurn, Stocked, Eating, Onto, Crosses;
      hide BookSide.BookSide.Repr;
      Sides(ask);
      var x, y := Side(ask), Side(!ask);
      CachedIsFirst(ask, s0);
      BestIsThere(ask, s0);
      StartEating(ask, x.queues, s0);
      var lv := x.levels[p];
      HeadAt(x, y, p);
      trades, rest, s := [], qty, s0;
      OntoNothing(MatchQueue(ask, taker.id, taker.price, qty, s0));
      while rest > 0 && !lv.Empty()
        invariant Paired(x, y) && p in x.levels && x.levels[p] == lv && lv.price == p
        invariant p in x.queues && lv.size == |x.queues[p]| && lv in x.owned
        invariant Eating(ask, x.queues, s, p) && Positive(s) && 0 <= rest <= qty && (rest == qty ==> !lv.Empty())
        invariant MatchQueue(ask, taker.id, taker.price, qty, s0)
                  == Onto(trades, MatchQueue(ask, taker.id, taker.price, rest, s))
        invariant Has(!ask) == old(Has(!ask)) && Best(!ask) == old(Best(!ask)) && byID.Keys <= old(byID.Keys)
        invariant Has(ask) && Best(ask) == p
        invariant x.nodes <= old(x.nodes) && x.owned == old(x.owned)
        decreases rest
      {
        var t := EatTurn(ask, x, y, lv, taker, rest, s, trades);
        trades := trades + [t];
        rest := rest - t.qty;
        s := AfterTurn(s, t.qty);
      }
      StopEating(ask, x.queues, s, p);
      if lv.Empty() {
        DropLevel(x, y, p);
        Refresh(ask, x, y);
      }
      StockedCached(ask, s);
      Whole(ask);
    }

    lemma Sides(ask: bool)
      requires Valid()
      ensures asks.ask && !bids.ask && Paired(Side(ask), Side(!ask))
    {
      EitherFirst(ask);
      hide Paired;
    }

    lemma Whole(ask: bool)
      requires asks.ask && !bids.ask && Paired(Side(ask), Side(!ask))
      ensures Valid()
    {
      EitherFirst(ask);
      hide Paired;
    }

    lemma StockedCached(ask: bool, s: seq<Order>)
      requires Stocked(ask, Side(ask).queues, s)
      requires Scanned(ask, Side(ask).queues, Has(ask), Best(ask)) || (Has(ask) && s != [] && Best(ask) == s[0].price)
      ensures Cached(ask) && Rel(ask, Side(ask).queues, s)
    {
      ScanIsFirst(ask, Side(ask).queues, Has(ask), Best(ask), s);
      hide Rel, Scanned;
    }

    // ---- the entry points ------------------------------------------------------------------------

    /** A queued order sits in a node, and the other way round. */
    lemma NodeHolds(ask: bool, b: Book, n: Node)
      requires Holds(b) && n in Side(ask).nodes
      ensures n.order in b.Side(ask) && n.side == (if ask then SELL else BUY) && n.lv != null
      ensures n.order.id in byID && byID[n.order.id] == n && n.order.id !in gone
    {
      hide Rel, Scanned, Tidy, Book.Sound;
      Sides(ask);
      var x := Side(ask);
      NodePlaced(x, Side(!ask), n);
      RelAt(ask, x.queues, b.Side(ask), n.order);
    }

    lemma NodePlaced(x: BookSide.BookSide, y: BookSide.BookSide, n: Node)
      requires Paired(x, y) && n in x.nodes
      ensures n.side == (if x.ask then SELL else BUY) && n.lv != null && n.lv in x.owned && n.lv.price == n.order.price
      ensures n.order in Queue(x.queues, n.order.price)
      ensures n.order.id in byID && byID[n.order.id] == n && n.order.id !in gone
    {
      hide BookSide.BookSide.LevelsValid, Loose;
      x.PlacedIn(n);
      var i := x.PlaceOf(n);
    }

    lemma OrderPlaced(x: BookSide.BookSide, y: BookSide.BookSide, o: Order)
      requires Paired(x, y) && o in Queue(x.queues, o.price)
      ensures o.id in byID && o.id !in gone && byID[o.id] in x.nodes && byID[o.id].order == o
    {
      hide BookSide.BookSide.LevelsValid, Loose;
      var i :| 0 <= i < |Queue(x.queues, o.price)| && Queue(x.queues, o.price)[i] == o;
      var n := x.NodeOf(o.price, i);
    }

    /** The index knows exactly the live ids and the cancelled ones. */
    lemma Known(b: Book, id: nat)
      requires Holds(b)
      ensures (id in byID && id !in gone) <==> b.Live(id)
      ensures id in gone ==> id in byID
    {
      hide Rel, Scanned, Tidy, Book.Sound;
      Sides(true);
      GoneKnown(asks, bids, id);
      if id in byID && id !in gone {
        var n := byID[id];
        NodeHolds(n in asks.nodes, b, n);
      }
      if b.Live(id) {
        var o :| (o in b.bids || o in b.asks) && o.id == id;
        var ask := o in b.asks;
        Sides(ask);
        RelAt(ask, Side(ask).queues, b.Side(ask), o);
        OrderPlaced(Side(ask), Side(!ask), o);
      }
    }

    lemma GoneKnown(x: BookSide.BookSide, y: BookSide.BookSide, id: nat)
      requires Paired(x, y)
      ensures id in gone ==> id in byID && byID[id] in detached
      ensures id in byID && id !in gone ==> byID[id] in x.nodes + y.nodes && byID[id].order.id == id
    {
      hide BookSide.BookSide.LevelsValid, Loose;
    }

    lemma Rejoin(b: Book, ask: bool)
      requires Valid() && b.Sound() && Cached(ask) && Cached(!ask)
      requires Rel(ask, Side(ask).queues, b.Side(ask)) && Rel(!ask, Side(!ask).queues, b.Side(!ask))
      ensures Holds(b)
    {
      hide Valid, Cached, Rel, Book.Sound;
    }

    lemma SideHeld(b: Book, ask: bool)
      requires Holds(b)
      ensures Rel(ask, Side(ask).queues, b.Side(ask)) && Cached(ask) && Stocked(ask, Side(ask).queues, b.Side(ask))
      ensures Scanned(ask, Side(ask).queues, Has(ask), Best(ask)) && Tidy(Side(ask).queues) && b.Sound()
    {
      hide Valid, Scanned, Rel, Book.Sound, Tidy;
    }

    /** Queues an order and moves the cached best price if it is the better one. */
    method Place(ask: bool, o: Order)
      requires Valid() && o.id !in byID
      modifies Repr()
      ensures Valid() && fresh(Repr() - old(Repr())) && gone == old(gone)
      ensures Side(ask).queues == Appended(old(Side(ask).queues), o) && Side(!ask).queues == old(Side(!ask).queues)
      ensures Has(ask) && Best(ask) ==
              if !old(Has(ask)) || Better(ask, o.price, old(Best(ask))) then o.price else old(Best(ask))
      ensures Has(!ask) == old(Has(!ask)) && Best(!ask) == old(Best(!ask))
    {
      hide Paired, Appended, BookSide.BookSide.Repr;
      Sides(ask);
      ReprIs(ask);
      var x, y := Side(ask), Side(!ask);
      PairedApart(x, y);
      RestOn(x, y, o);
      if !Has(ask) || Better(ask, o.price, Best(ask)) {
        Cache(ask, x, y, o.price);
      }
      ReprIs(ask);
      Whole(ask);
    }

    lemma ReprIs(ask: bool)
      ensures Repr() == {this} + detached + Side(ask).Repr() + Side(!ask).Repr()
    {
      hide BookSide.BookSide.Repr;
    }

    method Cache(ask: bool, x: BookSide.BookSide, y: BookSide.BookSide, best: int)
      requires Paired(x, y)
      modifies `bestAsk, `bestBid, `hasAsk, `hasBid
      ensures Paired(x, y) && Has(ask) && Best(ask) == best
      ensures Has(!ask) == old(Has(!ask)) && Best(!ask) == old(Best(!ask))
      ensures x.queues == old(x.queues) && y.queues == old(y.queues)
      ensures x.Repr() == old(x.Repr()) && y.Repr() == old(y.Repr())
    {
      hide BookSide.BookSide.LevelsValid, Indexes, Loose;
      SetBest(ask, true, best);
    }

    /** Rests an order, also one that crosses the other side; non-positive quantities, known ids and unknown
        sides are ignored. */
    method Add(o: Order, ghost b: Book)
      requires Holds(b)
      modifies Repr()
      ensures Holds(if !Tradable(o) || o.id in old(byID) then b
                    else var ask := o.side == SELL; b.With(ask, Inserted(ask, b.Side(ask), o)))
      ensures fresh(Repr() - old(Repr())) && gone == old(gone)
    {
      hide Valid, Rel, Scanned, Tidy, Inserted, Appended, Stocked, Book.Sound, Cached;
      if o.qty <= 0 || o.id in byID || !(o.side == BUY || o.side == SELL) {
        return;
      }
      var ask := o.side == SELL;
      Known(b, o.id);
      RestSound(b, ask, o);
      SideHeld(b, ask);
      SideHeld(b, !ask);
      AddStocks(ask, Side(ask).queues, b.Side(ask), o);
      AddScans(ask, Side(ask).queues, b.Side(ask), o, Has(ask), Best(ask));
      Place(ask, o);
      StockedCached(ask, Inserted(ask, b.Side(ask), o));
      StillCached(!ask);
      Rejoin(b.With(ask, Inserted(ask, b.Side(ask), o)), ask);
    }

    lemma StillCached(ask: bool)
      requires Scanned(ask, Side(ask).queues, Has(ask), Best(ask)) && Tidy(Side(ask).queues)
      ensures Cached(ask)
    {
    }

    // ---- cancelling ------------------------------------------------------------------------------

    /** Unlinks a resting order, deletes its level if that empties it, and then scans for the next best
        price if the level was the best one. */
    method Pull(ask: bool, x: BookSide.BookSide, y: BookSide.BookSide, n: Node)
      returns (ghost p: int, ghost k: nat)
      requires Paired(x, y) && x == Side(ask) && y == Side(!ask) && n in x.nodes
      requires Scanned(ask, x.queues, Has(ask), Best(ask))
      modifies `gone, `detached, `bestAsk, `bestBid, `hasAsk, `hasBid
      modifies x`levels, x`queues, x`nodes, x.owned, x.nodes`prev, x.nodes`next
      ensures Paired(x, y) && gone == old(gone) + {n.order.id} && detached == old(detached) + {n}
      ensures x.owned == old(x.owned) && x.nodes == old(x.nodes) - {n}
      ensures p in old(x.queues) && k < |old(x.queues)[p]| && old(x.queues)[p][k] == n.order
      ensures x.queues == Taken(old(x.queues), p, k) && Scanned(ask, x.queues, Has(ask), Best(ask))
      ensures Has(!ask) == old(Has(!ask)) && Best(!ask) == old(Best(!ask))
    {
      hide Paired, Without;
      ghost var queues := x.queues;
      k := Detach(x, y, n);
      p := n.order.price;
      WithoutLength(queues[p], k);
      TakeScans(ask, queues, p, k, Has(ask), Best(ask));
      assert Has(ask);
      hide Scanned;
      var lv := n.lv;
      if lv.Empty() {
        DropLevel(x, y, lv.price);
        assert queues[p := Without(queues[p], k)] - {p} == queues - {p};
        if Has(ask) && lv.price == Best(ask) {
          Refresh(ask, x, y);
        }
      }
    }

    /** All that a further cancel of a cancelled order does: its old level loses its whole list and counts one
        order less; if that makes the count zero, whatever level is kept under that price is deleted, and if
        the price was the best one the sizes are scanned again. Everything else stays. */
    twostate predicate Struck(n: Node, lv: Level)
      reads *
    {
      var ask := old(n.side) == SELL;
      && byID == old(byID) && gone == old(gone) && detached == old(detached)
      && lv.head == null && lv.tail == null && lv.size == old(lv.size) - 1
      && (forall l :: l in old(asks.owned + bids.owned) && l != lv ==>
            l.head == old(l.head) && l.tail == old(l.tail) && l.size == old(l.size))
      && (forall m :: m in old(asks.nodes + bids.nodes + detached) ==>
            m.prev == old(m.prev) && m.next == old(m.next) && m.order == old(m.order) && m.lv == old(m.lv))
      && Side(!ask).levels == old(Side(!ask).levels) && Has(!ask) == old(Has(!ask)) && Best(!ask) == old(Best(!ask))
      && Side(ask).levels == old(Side(ask).levels) - (if lv.size == 0 then {lv.price} else {})
      && if lv.size == 0 && old(Has(ask)) && lv.price == old(Best(ask)) then SizesScanned(ask)
         else Has(ask) == old(Has(ask)) && Best(ask) == old(Best(ask))
    }

    /** A cancelled order cancelled again: the node hangs nowhere, but its old level pays for it. */
    method Strike(n: Node, lv: Level)
      requires n.lv == lv && n.prev == null && n.next == null && asks != bids
      modifies lv`head, lv`tail, lv`size, n`prev, n`next, asks`levels, bids`levels
      modifies `bestAsk, `bestBid, `hasAsk, `hasBid
      ensures Struck(n, lv)
    {
      hide SizesScanned;
      lv.RemoveStray(n);
      DropCounted(n.side == SELL, lv);
    }

    method DropCounted(ask: bool, lv: Level)
      requires asks != bids
      modifies Side(ask)`levels, `bestAsk, `bestBid, `hasAsk, `hasBid
      ensures Has(!ask) == old(Has(!ask)) && Best(!ask) == old(Best(!ask))
      ensures Side(ask).levels == old(Side(ask).levels) - (if lv.size == 0 then {lv.price} else {})
      ensures if lv.size == 0 && old(Has(ask)) && lv.price == old(Best(ask)) then SizesScanned(ask)
              else Has(ask) == old(Has(ask)) && Best(ask) == old(Best(ask))
    {
      hide SizesScanned;
      if lv.Empty() {
        var x := Side(ask);
        x.levels := x.levels - {lv.price};
        if Has(ask) && lv.price == Best(ask) {
          Recompute(ask);
        }
      }
    }

    lemma StrayHangsNowhere(n: Node)
      requires Valid() && n in detached
      ensures n.lv != null && n.lv in asks.owned + bids.owned && n.prev == null && n.next == null && asks != bids
    {
      hide Indexes, BookSide.BookSide.LevelsValid;
    }

    /** The node has no predecessor and is not the head: exactly then its order was cancelled before. */
    lemma StrayIsGone(x: BookSide.BookSide, y: BookSide.BookSide, id: nat)
      requires Paired(x, y) && x.ask && !y.ask && id in byID
      ensures var n := byID[id];
              && n.lv != null
              && (n in detached <==> n.prev == null && n.lv.head != n)
              && (id in gone <==> n in detached)
              && (n !in detached ==> n in (if n.side == SELL then x else y).nodes && n.order.id == id)
    {
      hide BookSide.BookSide.LevelsValid;
      var n := byID[id];
      if n in x.nodes {
        x.PlacedIn(n);
        if n.prev == null {
          x.NoPrev(n);
        }
      } else if n in y.nodes {
        y.PlacedIn(n);
        if n.prev == null {
          y.NoPrev(n);
        }
      }
    }

    method Withdraw(ask: bool, n: Node, ghost b: Book)
      requires Holds(b) && n in Side(ask).nodes
      modifies Repr()
      ensures Holds(CancelOrder(b, old(n.order.id)).0) && CancelOrder(b, old(n.order.id)).1 == Cancelled(true)
      ensures gone == old(gone) + {old(n.order.id)} && Repr() <= old(Repr())
    {
      hide Paired, Rel, Scanned, Tidy, Book.Sound, Stocked, Taken, Without, Find, CancelOrder;
      Sides(ask);
      SideHeld(b, ask);
      SideHeld(b, !ask);
      NodeHolds(ask, b, n);
      SideSound(b, ask);
      CancelFinds(b, ask, n.order);
      CancelSound(b, n.order.id);
      ghost var s := b.Side(ask);
      ghost var queues := Side(ask).queues;
      ghost var p, k := Pull(ask, Side(ask), Side(!ask), n);
      TakeStocks(ask, queues, s, p, k);
      Whole(ask);
      StockedCached(ask, Without(s, Find(s, n.order.id)));
      Rejoin(CancelOrder(b, n.order.id).0, ask);
    }

    /** Answers yes to every id the index knows. For an id not cancelled before that is the reference
        answer and the book is the reference book; for one cancelled before it is the wrong answer. */
    method Cancel(id: nat, ghost b: Book) returns (ok: bool)
      requires Holds(b)
      modifies Repr()
      ensures ok == (id in old(byID)) && CancelOrder(b, id).1 == Cancelled(ok && id !in old(gone))
      ensures id !in old(gone) ==> Holds(CancelOrder(b, id).0) && gone == old(gone) + (if ok then {id} else {})
      ensures id in old(gone) ==>
                && CancelOrder(b, id).0 == b && id in old(byID)
                && old(byID[id].lv) != null && Struck(old(byID[id]), old(byID[id].lv))
      ensures Repr() <= old(Repr())
    {
      hide Paired, Rel, Scanned, Tidy, Book.Sound, CancelOrder;
      Known(b, id);
      if !b.Live(id) {
        NoneLive(b, id);
      }
      if id !in byID {
        return false;
      }
      Sides(true);
      StrayIsGone(asks, bids, id);
      var n := byID[id];
      ok := true;
      if n.prev == null && n.lv.head != n {
        StrayHangsNowhere(n);
        Strike(n, n.lv);
      } else {
        Withdraw(n.side == SELL, n, b);
      }
    }

    // ---- submitting ------------------------------------------------------------------------------

    method MatchTaker(ask: bool, o: Order, ghost b: Book) returns (trades: seq<Trade>, rest: int)
      requires Holds(b) && Tradable(o) && ask == (o.side == BUY)
      modifies Repr()
      ensures Holds(Matched(b, o)) && gone == old(gone) && byID.Keys <= old(byID.Keys)
      ensures var m := MatchQueue(ask, o.id, o.price, o.qty, b.Side(ask)); trades == m.trades && rest == m.rest >= 0
      ensures Repr() <= old(Repr())
    {
      hide Paired, Rel, Scanned, Tidy, Stocked, Book.Sound, MatchQueue, Positive;
      Sides(ask);
      SideHeld(b, ask);
      SideHeld(b, !ask);
      SideSound(b, ask);
      AfterMatchSound(b, o);
      ghost var s;
      trades, rest, s := MatchSide(ask, o, b.Side(ask));
      Rejoin(Matched(b, o), ask);
    }

    /** Matches a taker and rests what is left of it. */
    method SubmitLimit(o: Order, ghost b: Book) returns (trades: seq<Trade>)
      requires Holds(b)
      modifies Repr()
      ensures trades == SubmitOrder(b, o).1.trades && Holds(Landed(b, o, old(gone))) && gone == old(gone)
      ensures fresh(Repr() - old(Repr()))
    {
      hide Valid, Rel, Scanned, Tidy, Book.Sound, MatchQueue, Inserted, Cached, Book.Live;
      trades := [];
      if o.qty <= 0 || !(o.side == BUY || o.side == SELL) {
        LandsWithout(b, o, gone);
        return;
      }
      var ask := o.side == BUY;
      var rest;
      trades, rest := MatchTaker(ask, o, b);
      if rest > 0 {
        var left := o.(qty := rest);
        ghost var b' := Matched(b, o);
        Known(b', o.id);
        Add(left, b');
      } else {
        LandsWithout(b, o, gone);
      }
    }
  }

  lemma WithoutLength(q: seq<Order>, k: nat)
    requires k < |q|
    ensures |Without(q, k)| == |q| - 1
  {
  }

  lemma RelAt(ask: bool, queues: map<int, seq<Order>>, s: seq<Order>, o: Order)
    requires Rel(ask, queues, s)
    ensures o in s <==> o in Queue(queues, o.price)
  {
    RelMember(ask, queues, s, o);
  }

  lemma GoesOn(goal: Match, trades: seq<Trade>, more: seq<Trade>, m: Match)
    requires goal == Onto(trades, Onto(more, m))
    ensures goal == Onto(trades + more, m)
  {
    assert trades + (more + m.trades) == (trades + more) + m.trades;
  }

  lemma OpenedAppends(queues: map<int, seq<Order>>, o: Order)
    ensures o.price !in queues ==> Appended(queues[o.price := []], o) == Appended(queues, o)
  {
  }
}
