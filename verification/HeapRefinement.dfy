/** The bucketed book with lazy heaps gives the results of the sorted-slice book exactly as long
    as every price with a resting order is in its heap. */
module HeapRefinement {
  import opened Basics
  import opened Orders
  import opened BookSpec
  import opened BookRuns
  import opened HeapModel

  /** A level map holds the sorted queue s, price by price. */
  ghost predicate Rel(ask: bool, levels: map<int, seq<Order>>, s: seq<Order>) {
    && Sorted(ask, s)
    && forall p :: AtPrice(s, p) == Queue(levels, p)
  }

  // ---- sequences by price ------------------------------------------------------------------

  lemma {:induction false} AtPriceAppend(s: seq<Order>, t: seq<Order>, p: int)
    ensures AtPrice(s + t, p) == AtPrice(s, p) + AtPrice(t, p)
  {
    if s == [] {
      assert s + t == t;
    } else {
      AtPriceAppend(s[1..], t, p);
      assert (s + t)[1..] == s[1..] + t;
    }
  }

  lemma {:induction false} AtPriceOnly(s: seq<Order>, p: int)
    requires forall o :: o in s ==> o.price == p
    ensures AtPrice(s, p) == s
    ensures forall q :: q != p ==> AtPrice(s, q) == []
  {
    if s != [] {
      AtPriceOnly(s[1..], p);
    }
  }

  lemma {:induction false} AtPriceNone(s: seq<Order>, p: int)
    requires forall o :: o in s ==> o.price != p
    ensures AtPrice(s, p) == []
  {
    if s != [] {
      AtPriceNone(s[1..], p);
    }
  }

  lemma {:induction false} AtPriceMember(s: seq<Order>, p: int, o: Order)
    ensures o in AtPrice(s, p) <==> o in s && o.price == p
  {
    if s != [] {
      AtPriceMember(s[1..], p, o);
    }
  }

  lemma {:induction false} AtPriceInserted(ask: bool, s: seq<Order>, o: Order, p: int)
    requires Sorted(ask, s)
    ensures AtPrice(Inserted(ask, s, o), p) == AtPrice(s, p) + (if o.price == p then [o] else [])
  {
    if s == [] {
    } else if Better(ask, o.price, s[0].price) {
      assert ([o] + s)[1..] == s;
      if o.price == p {
        AtPriceNone(s, p);
      }
    } else {
      AtPriceInserted(ask, s[1..], o, p);
      assert Inserted(ask, s, o)[1..] == Inserted(ask, s[1..], o);
    }
  }

  ghost predicate FirstWithId(s: seq<Order>, i: nat) {
    i < |s| && forall j :: 0 <= j < i ==> s[j].id != s[i].id
  }

  /** Taking an order out of the queue takes it out of its own price only. */
  lemma {:induction false} AtPriceWithout(s: seq<Order>, i: nat, p: int)
    requires FirstWithId(s, i)
    ensures Find(AtPrice(s, s[i].price), s[i].id) < |AtPrice(s, s[i].price)|
    ensures AtPrice(Without(s, i), p) ==
            if p == s[i].price then Without(AtPrice(s, p), Find(AtPrice(s, p), s[i].id)) else AtPrice(s, p)
  {
    var q, id := s[i].price, s[i].id;
    if i == 0 {
      assert Without(s, 0) == s[1..];
      assert AtPrice(s, q)[0] == s[0];
    } else {
      assert FirstWithId(s[1..], i - 1);
      AtPriceWithout(s[1..], i - 1, p);
      assert Without(s, i)[1..] == Without(s[1..], i - 1);
      var t := AtPrice(s[1..], q);
      if s[0].price == q {
        FindCons(s[0], t, id);
      }
    }
  }

  lemma FindCons(o: Order, t: seq<Order>, id: nat)
    requires o.id != id && Find(t, id) < |t|
    ensures Find([o] + t, id) == 1 + Find(t, id)
    ensures Without([o] + t, 1 + Find(t, id)) == [o] + Without(t, Find(t, id))
  {
    assert ([o] + t)[1..] == t;
  }

  /** A sorted queue starts with everything at its first price. */
  lemma {:induction false} SplitBest(ask: bool, s: seq<Order>) returns (t: seq<Order>)
    requires s != [] && Sorted(ask, s)
    ensures s == AtPrice(s, s[0].price) + t
    ensures Sorted(ask, t) && forall o :: o in t ==> Better(ask, s[0].price, o.price)
  {
    var p := s[0].price;
    if |s| > 1 && s[1].price == p {
      t := SplitBest(ask, s[1..]);
    } else {
      t := s[1..];
      AtPriceNone(t, p);
    }
  }

  // ---- matching one level after another ----------------------------------------------------

  lemma {:induction false} MatchAppend(ask: bool, taker: nat, limit: int, qty: int, q: seq<Order>, t: seq<Order>)
    requires Positive(q) && forall o :: o in q ==> Crosses(ask, o.price, limit)
    ensures MatchQueue(ask, taker, limit, qty, q + t) == Continue(ask, taker, limit, MatchQueue(ask, taker, limit, qty, q), t)
    ensures MatchQueue(ask, taker, limit, qty, q).book != [] ==> MatchQueue(ask, taker, limit, qty, q).rest <= 0
    decreases |q|
  {
    if q == [] {
      assert q + t == t;
      assert [] + MatchQueue(ask, taker, limit, qty, t).trades == MatchQueue(ask, taker, limit, qty, t).trades;
    } else if qty > 0 {
      assert (q + t)[1..] == q[1..] + t;
      assert (q + t)[0] == q[0];
      if q[0].qty <= qty {
        MatchAppend(ask, taker, limit, qty - q[0].qty, q[1..], t);
        var m := MatchQueue(ask, taker, limit, qty - q[0].qty, q[1..]);
        ContinueCons(ask, taker, limit, Trade(taker, q[0].id, q[0].price, q[0].qty), m, t);
      } else {
        var h := q[0].(qty := q[0].qty - qty);
        assert [h] + (q[1..] + t) == ([h] + q[1..]) + t;
      }
    }
  }

  /** Goes on into the queue t when a match has used up everything before it. */
  ghost function Continue(ask: bool, taker: nat, limit: int, m: Match, t: seq<Order>): Match {
    if m.book == [] then
      var r := MatchQueue(ask, taker, limit, m.rest, t);
      r.(trades := m.trades + r.trades)
    else m.(book := m.book + t)
  }

  lemma ContinueCons(ask: bool, taker: nat, limit: int, x: Trade, m: Match, t: seq<Order>)
    ensures var c := Continue(ask, taker, limit, m, t);
            Continue(ask, taker, limit, m.(trades := [x] + m.trades), t) == c.(trades := [x] + c.trades)
  {
    var ts := MatchQueue(ask, taker, limit, m.rest, t).trades;
    assert [x] + (m.trades + ts) == ([x] + m.trades) + ts;
  }

  lemma RelMember(ask: bool, levels: map<int, seq<Order>>, s: seq<Order>, o: Order)
    requires Rel(ask, levels, s)
    ensures o in s <==> o in Queue(levels, o.price)
  {
    AtPriceMember(s, o.price, o);
  }

  lemma RelKeyed(ask: bool, levels: map<int, seq<Order>>, s: seq<Order>)
    requires Rel(ask, levels, s)
    ensures Keyed(levels)
  {
    forall p, i | p in levels && 0 <= i < |levels[p]|
      ensures levels[p][i].price == p
    {
      assert AtPrice(s, p) == levels[p];
      AtPriceMember(s, p, levels[p][i]);
    }
  }

  /** When every live price is in the heap, the best visible price is the first price of the
      sorted queue. */
  lemma BestIsFirst(ask: bool, h: Half, s: seq<Order>)
    requires Rel(ask, h.levels, s) && Healthy(h)
    ensures Visible(h) == {} <==> s == []
    ensures s != [] ==> BestOf(ask, Visible(h)) == s[0].price
  {
    forall p
      ensures p in Visible(h) <==> AtPrice(s, p) != []
    {
      assert AtPrice(s, p) == Queue(h.levels, p);
    }
    if s != [] {
      AtPriceMember(s, s[0].price, s[0]);
      forall p | p in Visible(h)
        ensures !Better(ask, p, s[0].price)
      {
        AtPriceMember(s, p, AtPrice(s, p)[0]);
      }
      BestIs(ask, Visible(h), s[0].price);
    } else {
      assert forall p :: p !in Visible(h);
    }
  }

  lemma PrunedHealthy(ask: bool, h: Half)
    requires Healthy(h)
    ensures Healthy(Pruned(ask, h))
  {
    forall p | p in h.levels && h.levels[p] != []
      ensures p in Pruned(ask, h).heap
    {
      assert p in Visible(h);
    }
  }

  /** Dropping the best level leaves the levels of the rest of the queue. */
  lemma RelTail(ask: bool, levels: map<int, seq<Order>>, s: seq<Order>, p: int, t: seq<Order>)
    requires Rel(ask, levels, s) && s == AtPrice(s, p) + t && Sorted(ask, t)
    requires forall o :: o in t ==> o.price != p
    ensures Rel(ask, levels - {p}, t)
  {
    var q := AtPrice(s, p);
    forall o | o in q ensures o.price == p {
      AtPriceMember(s, p, o);
    }
    AtPriceOnly(q, p);
    AtPriceNone(t, p);
    hide AtPrice, Sorted;
    forall r
      ensures AtPrice(t, r) == Queue(levels - {p}, r)
    {
      AtPriceAppend(q, t, r);
      assert AtPrice(s, r) == Queue(levels, r);
      assert r != p ==> [] + AtPrice(t, r) == AtPrice(t, r);
    }
  }

  lemma RelHead(ask: bool, levels: map<int, seq<Order>>, p: int, q: seq<Order>, t: seq<Order>)
    requires Rel(ask, levels - {p}, t)
    requires forall o :: o in q ==> o.price == p
    requires forall o :: o in t ==> Better(ask, p, o.price)
    ensures Rel(ask, levels[p := q], q + t)
  {
    AtPriceOnly(q, p);
    AtPriceNone(t, p);
    assert Sorted(ask, q + t);
    hide AtPrice, Sorted;
    forall r
      ensures AtPrice(q + t, r) == Queue(levels[p := q], r)
    {
      AtPriceAppend(q, t, r);
      assert AtPrice(t, r) == Queue(levels - {p}, r);
      assert AtPrice(q, r) + AtPrice(t, r) == if r == p then q else AtPrice(t, r);
    }
  }

  /** Matching level by level, through the heap, is matching along the sorted queue: same trades,
      same rest, same resting queues, and every live price is still in the heap. */
  lemma {:induction false} MatchHalfRefines(ask: bool, taker: nat, limit: int, qty: int, h: Half, s: seq<Order>)
    requires Rel(ask, h.levels, s) && Healthy(h) && Positive(s)
    ensures var r := MatchHalf(ask, taker, limit, qty, h);
            var m := MatchQueue(ask, taker, limit, qty, s);
            && r.trades == m.trades && r.rest == m.rest
            && Rel(ask, r.half.levels, m.book) && Healthy(r.half)
    decreases |h.levels|
  {
    if qty > 0 {
      BestIsFirst(ask, h, s);
      PrunedHealthy(ask, h);
      if s != [] && Crosses(ask, s[0].price, limit) {
        var p, q := s[0].price, h.levels[s[0].price];
        var t := BestSplit(ask, h, s);
        MatchAppend(ask, taker, limit, qty, q, t);
        var m := MatchQueue(ask, taker, limit, qty, q);
        var h1 := Pruned(ask, h);
        hide Rel, Healthy, Sorted, AtPrice, BestOf, MatchQueue;
        if m.book == [] {
          LevelsShrink(h.levels, p);
          MatchHalfRefines(ask, taker, limit, m.rest, h1.(levels := h.levels - {p}), t);
        } else {
          MatchRemains(ask, taker, limit, qty, q);
          RemainsPrice(q, m.book, p);
          RelHead(ask, h.levels, p, m.book, t);
        }
      }
    }
  }

  /** The best level and the rest of the sorted queue. */
  lemma BestSplit(ask: bool, h: Half, s: seq<Order>) returns (t: seq<Order>)
    requires Rel(ask, h.levels, s) && Healthy(h) && Positive(s) && s != []
    ensures var p := s[0].price;
            && p in h.levels && s == h.levels[p] + t && Rel(ask, h.levels - {p}, t)
            && Healthy(h.(levels := h.levels - {p})) && Healthy(Pruned(ask, h).(levels := h.levels - {p}))
    ensures Positive(h.levels[s[0].price]) && Positive(t)
    ensures forall o :: o in h.levels[s[0].price] ==> o.price == s[0].price
    ensures forall o :: o in t ==> Better(ask, s[0].price, o.price)
  {
    BestIsFirst(ask, h, s);
    PrunedHealthy(ask, h);
    var p := s[0].price;
    t := SplitBest(ask, s);
    var q := h.levels[p];
    assert AtPrice(s, p) == q;
    forall o | o in q
      ensures o.price == p && o in s
    {
      AtPriceMember(s, p, o);
    }
    RelTail(ask, h.levels, s, p, t);
    hide Rel, Sorted, AtPrice, BestOf;
  }

  lemma RemainsPrice(s: seq<Order>, t: seq<Order>, p: int)
    requires Remains(s, t) && forall o :: o in s ==> o.price == p
    ensures forall o :: o in t ==> o.price == p
  {
    var u := s[|s| - |t|..];
    assert forall o :: o in u ==> o in s;
    if t != u {
      assert t[0].price == u[0].price && u[0] in s;
    }
  }

  // ---- one command -------------------------------------------------------------------------

  ghost predicate Tidy(levels: map<int, seq<Order>>) {
    forall p :: p in levels ==> levels[p] != []
  }

  /** Both sides hold the reference queues. */
  ghost predicate Holds(h: Buckets, b: Book) {
    && Rel(true, h.asks.levels, b.asks) && Rel(false, h.bids.levels, b.bids)
    && Healthy(h.bids) && Tidy(h.bids.levels)
  }

  lemma IndexedIsLive(h: Buckets, b: Book, id: nat)
    requires Holds(h, b)
    ensures Indexed(h, id) <==> b.Live(id)
  {
    if Indexed(h, id) {
      var ask, p, i: nat :| At(h, ask, p, i, id);
      var o := h.Side(ask).levels[p][i];
      RelKeyed(ask, h.Side(ask).levels, b.Side(ask));
      RelMember(ask, h.Side(ask).levels, b.Side(ask), o);
    }
    if b.Live(id) {
      var o :| (o in b.bids || o in b.asks) && o.id == id;
      var ask := o in b.asks;
      RelMember(ask, h.Side(ask).levels, b.Side(ask), o);
      var i :| 0 <= i < |Queue(h.Side(ask).levels, o.price)| && Queue(h.Side(ask).levels, o.price)[i] == o;
      assert At(h, ask, o.price, i, id);
    }
  }

  lemma RelAdd(ask: bool, h: Half, s: seq<Order>, o: Order)
    requires Rel(ask, h.levels, s)
    ensures Rel(ask, AddHalf(h, o).levels, Inserted(ask, s, o))
  {
    InsertedKeeps(ask, s, o);
    forall p
      ensures AtPrice(Inserted(ask, s, o), p) == Queue(AddHalf(h, o).levels, p)
    {
      AtPriceInserted(ask, s, o, p);
      assert AtPrice(s, p) == Queue(h.levels, p);
    }
  }

  /** Adding keeps every live price in the heap exactly when the price is in the heap already or
      has no level object: the guard of the branch that skips the push. */
  lemma AddHealthy(h: Half, o: Order)
    requires Healthy(h)
    ensures Healthy(AddHalf(h, o)) <==> !(o.price in h.levels && o.price !in h.heap)
  {
    var h' := AddHalf(h, o);
    assert h'.levels[o.price] != [];
  }

  lemma {:induction false} AtPriceDistinct(s: seq<Order>, p: int)
    requires DistinctIds(s)
    ensures DistinctIds(AtPrice(s, p))
  {
    if s != [] {
      AtPriceDistinct(s[1..], p);
      forall o | o in AtPrice(s[1..], p)
        ensures o.id != s[0].id
      {
        AtPriceMember(s[1..], p, o);
      }
    }
  }

  lemma RelWithout(ask: bool, levels: map<int, seq<Order>>, s: seq<Order>, k: nat)
    requires Rel(ask, levels, s) && FirstWithId(s, k)
    ensures var p := s[k].price;
            && Find(AtPrice(s, p), s[k].id) < |AtPrice(s, p)|
            && Rel(ask, levels[p := Without(AtPrice(s, p), Find(AtPrice(s, p), s[k].id))], Without(s, k))
  {
    var p := s[k].price;
    WithoutSorted(ask, s, k);
    hide AtPrice, Find, Sorted, FirstWithId;
    AtPriceWithout(s, k, p);
    var q, t := Without(AtPrice(s, p), Find(AtPrice(s, p), s[k].id)), Without(s, k);
    hide Without;
    forall r
      ensures AtPrice(t, r) == Queue(levels[p := q], r)
    {
      AtPriceWithout(s, k, r);
      assert AtPrice(s, r) == Queue(levels, r);
    }
  }

  lemma WithoutSorted(ask: bool, s: seq<Order>, k: nat)
    requires Sorted(ask, s) && k < |s|
    ensures Sorted(ask, Without(s, k))
  {
  }

  lemma FindDistinct(q: seq<Order>, i: nat)
    requires DistinctIds(q) && i < |q|
    ensures Find(q, q[i].id) == i
  {
  }

  /** Unlinking the i-th order of a level removes that order from the sorted queue. */
  lemma RelUnlink(ask: bool, levels: map<int, seq<Order>>, s: seq<Order>, p: int, i: nat)
    requires Rel(ask, levels, s) && DistinctIds(s)
    requires p in levels && i < |levels[p]|
    ensures var k := Find(s, levels[p][i].id);
            && k < |s| && s[k] == levels[p][i] && Rel(ask, levels[p := Without(levels[p], i)], Without(s, k))
  {
    var q := levels[p];
    assert q == AtPrice(s, p);
    AtPriceMember(s, p, q[i]);
    AtPriceDistinct(s, p);
    FindDistinct(q, i);
    FindMember(s, q[i]);
    hide *;
    RelWithout(ask, levels, s, Find(s, q[i].id));
  }

  lemma FindMember(s: seq<Order>, o: Order)
    requires DistinctIds(s) && o in s
    ensures var k := Find(s, o.id); k < |s| && s[k] == o && FirstWithId(s, k)
  {
    var j :| 0 <= j < |s| && s[j] == o;
    FindDistinct(s, j);
  }

  lemma RelDropEmpty(ask: bool, levels: map<int, seq<Order>>, s: seq<Order>, p: int)
    requires Rel(ask, levels, s) && Queue(levels, p) == []
    ensures Rel(ask, levels - {p}, s)
  {
    forall r
      ensures AtPrice(s, r) == Queue(levels - {p}, r)
    {
      assert AtPrice(s, r) == Queue(levels, r);
    }
  }

  /** Cancelling through the index gives the answer and the queues of the scanning cancel, even
      though the emptied level is deleted on the wrong side: an uncrossed book has no bid level
      at an ask price. */
  lemma CancelRefines(h: Buckets, b: Book, id: nat)
    requires b.Valid() && Holds(h, b)
    ensures var (h', out) := CancelBuckets(h, id);
            && out == CancelOrder(b, id).1
            && Holds(h', CancelOrder(b, id).0)
            && (Healthy(h.asks) ==> Healthy(h'.asks))
  {
    IndexedIsLive(h, b, id);
    CancelKeepsValid(b, id);
    if Indexed(h, id) {
      var ask, p, i: nat :| At(h, ask, p, i, id) && CancelBuckets(h, id) == (Unlinked(h, ask, p, i), Cancelled(true));
      UnlinkRefines(h, b, ask, p, i, id);
    }
  }

  lemma NoSharedPrice(h: Buckets, b: Book, a: Order)
    requires b.Valid() && Holds(h, b) && a in b.asks
    ensures Queue(h.bids.levels, a.price) == []
  {
    assert forall d :: d in b.bids ==> d.price != a.price;
    AtPriceNone(b.bids, a.price);
    assert AtPrice(b.bids, a.price) == Queue(h.bids.levels, a.price);
  }

  lemma UnlinkRefines(h: Buckets, b: Book, ask: bool, p: int, i: nat, id: nat)
    requires b.Valid() && Holds(h, b) && At(h, ask, p, i, id)
    ensures Holds(Unlinked(h, ask, p, i), CancelOrder(b, id).0)
    ensures Healthy(h.asks) ==> Healthy(Unlinked(h, ask, p, i).asks)
  {
    var levels, s := h.Side(ask).levels, b.Side(ask);
    RelUnlink(ask, levels, s, p, i);
    var k := Find(s, id);
    RelKeyed(ask, levels, s);
    if ask {
      assert Find(b.bids, id) == |b.bids|;
      NoSharedPrice(h, b, s[k]);
      RelDropEmpty(false, h.bids.levels, b.bids, p);
    } else {
      var levels' := levels[p := Without(levels[p], i)];
      if Without(levels[p], i) == [] {
        RelDropEmpty(false, levels', Without(s, k), p);
      }
    }
  }

  lemma {:induction false} MatchTidy(ask: bool, taker: nat, limit: int, qty: int, h: Half)
    requires Tidy(h.levels)
    ensures Tidy(MatchHalf(ask, taker, limit, qty, h).half.levels)
    decreases |h.levels|
  {
    if qty > 0 && Visible(h) != {} {
      var best := BestOf(ask, Visible(h));
      var m := MatchQueue(ask, taker, limit, qty, h.levels[best]);
      if Crosses(ask, best, limit) && m.book == [] {
        LevelsShrink(h.levels, best);
        MatchTidy(ask, taker, limit, m.rest, Pruned(ask, h).(levels := h.levels - {best}));
      }
    }
  }

  /** The order would rest at an ask price whose level object survived a cancel while its heap
      entry did not: the level is found, so the price is not pushed again. */
  ghost predicate Traps(h: Buckets, c: Command) {
    && c.Submit? && c.order.side == SELL
    && var (h', trades, rest) := MatchBuckets(h, c.order);
       rest > 0 && c.order.price in h.asks.levels && c.order.price !in h.asks.heap
  }

  lemma MatchBucketsRefines(h: Buckets, b: Book, o: Order)
    requires b.Valid() && !b.Live(o.id) && Holds(h, b) && Healthy(h.asks) && Tradable(o)
    ensures var ask := o.side == BUY;
            var m := MatchQueue(ask, o.id, o.price, o.qty, b.Side(ask));
            var (h', trades, rest) := MatchBuckets(h, o);
            var b' := b.With(ask, m.book);
            && trades == m.trades && rest == m.rest
            && Holds(h', b') && Healthy(h'.asks) && !b'.Live(o.id)
            && h' == h.With(ask, h'.Side(ask))
  {
    var ask := o.side == BUY;
    MatchHalfRefines(ask, o.id, o.price, o.qty, h.Side(ask), b.Side(ask));
    MatchedSide(ask, o, b.Side(ask));
    if !ask {
      MatchTidy(ask, o.id, o.price, o.qty, h.bids);
    }
  }

  lemma AddRefines(h: Buckets, b: Book, o: Order)
    requires Holds(h, b) && Healthy(h.asks) && Tradable(o) && !b.Live(o.id)
    ensures var ask := o.side == SELL;
            var h' := AddBuckets(h, o);
            && Holds(h', b.With(ask, Inserted(ask, b.Side(ask), o)))
            && (Healthy(h'.asks) <==> !(ask && o.price in h.asks.levels && o.price !in h.asks.heap))
  {
    var ask := o.side == SELL;
    IndexedIsLive(h, b, o.id);
    RelAdd(ask, h.Side(ask), b.Side(ask), o);
    AddHealthy(h.Side(ask), o);
  }

  /** A submit under a fresh id gives the reference book's trades, rest and queues. Afterwards
      every live price is still in its heap if and only if the submit did not trap. */
  lemma SubmitRefines(h: Buckets, b: Book, o: Order)
    requires b.Valid() && !b.Live(o.id) && Holds(h, b) && Healthy(h.asks)
    ensures var (h', out) := SubmitBuckets(h, o);
            && out == SubmitOrder(b, o).1
            && Holds(h', SubmitOrder(b, o).0)
            && (Healthy(h'.asks) <==> !Traps(h, Submit(o)))
  {
    if Tradable(o) {
      var ask := o.side == BUY;
      var m := MatchQueue(ask, o.id, o.price, o.qty, b.Side(ask));
      MatchBucketsRefines(h, b, o);
      if m.rest > 0 {
        AddRefines(MatchBuckets(h, o).0, b.With(ask, m.book), o.(qty := m.rest));
      }
    }
  }

  // ---- whole histories ---------------------------------------------------------------------

  ghost function RunBuckets(cs: seq<Command>): Buckets {
    if cs == [] then NOTHING else StepBuckets(RunBuckets(cs[..|cs| - 1]), cs[|cs| - 1]).0
  }

  ghost predicate TrapFree(cs: seq<Command>) {
    forall k :: 0 <= k < |cs| ==> !Traps(RunBuckets(cs[..k]), cs[k])
  }

  lemma FreshSubmit(cs: seq<Command>, k: nat)
    requires OncePerId(cs) && k < |cs| && cs[k].Submit?
    ensures !Run(cs[..k]).Live(cs[k].order.id)
  {
    var before := cs[..k];
    assert OncePerId(before);
    RunValid(before);
    assert !Mentions(before, cs[k].order.id);
  }

  /** Over every history that submits an id once and never traps, the heap book answers every
      command as the slice book does and rests the same queues, in every reachable state. */
  lemma {:induction false} RunRefines(cs: seq<Command>, k: nat)
    requires OncePerId(cs) && TrapFree(cs) && k <= |cs|
    ensures Holds(RunBuckets(cs[..k]), Run(cs[..k])) && Healthy(RunBuckets(cs[..k]).asks)
    ensures forall i :: 0 <= i < k ==> StepBuckets(RunBuckets(cs[..i]), cs[i]).1 == Step(Run(cs[..i]), cs[i]).1
  {
    hide StepBuckets, Step, RunBuckets, Run, Holds, Healthy, TrapFree, OncePerId;
    if k > 0 {
      RunRefines(cs, k - 1);
      StepRefines(cs, k - 1);
    } else {
      NothingHolds(cs);
    }
  }

  lemma NothingHolds(cs: seq<Command>)
    ensures Holds(RunBuckets(cs[..0]), Run(cs[..0])) && Healthy(RunBuckets(cs[..0]).asks)
  {
  }

  /** One more command of a trap-free history. */
  lemma StepRefines(cs: seq<Command>, k: nat)
    requires OncePerId(cs) && TrapFree(cs) && k < |cs|
    requires Holds(RunBuckets(cs[..k]), Run(cs[..k])) && Healthy(RunBuckets(cs[..k]).asks)
    ensures Holds(RunBuckets(cs[..k + 1]), Run(cs[..k + 1])) && Healthy(RunBuckets(cs[..k + 1]).asks)
    ensures StepBuckets(RunBuckets(cs[..k]), cs[k]).1 == Step(Run(cs[..k]), cs[k]).1
  {
    var h, b := RunBuckets(cs[..k]), Run(cs[..k]);
    assert cs[..k + 1][..k] == cs[..k];
    assert OncePerId(cs[..k]);
    RunValid(cs[..k]);
    assert !Traps(h, cs[k]);
    assert RunBuckets(cs[..k + 1]) == StepBuckets(h, cs[k]).0 && Run(cs[..k + 1]) == Step(b, cs[k]).0;
    hide RunBuckets, Run, Holds, Healthy, TrapFree, OncePerId, SubmitBuckets, CancelBuckets, SubmitOrder, CancelOrder;
    match cs[k]
    case Submit(o) =>
      FreshSubmit(cs, k);
      SubmitRefines(h, b, o);
    case Cancel(id) =>
      CancelRefines(h, b, id);
  }

  // ---- and exactly then --------------------------------------------------------------------

  ghost predicate AgreesOnEveryTaker(ask: bool, h: Half, s: seq<Order>) {
    forall taker: nat, limit, qty ::
      MatchHalf(ask, taker, limit, qty, h).trades == MatchQueue(ask, taker, limit, qty, s).trades
  }

  lemma {:induction false} TradesAreVisible(ask: bool, taker: nat, limit: int, qty: int, h: Half)
    requires Keyed(h.levels)
    ensures forall t :: t in MatchHalf(ask, taker, limit, qty, h).trades ==> t.price in h.heap
    decreases |h.levels|
  {
    if qty > 0 && Visible(h) != {} {
      var best := BestOf(ask, Visible(h));
      if Crosses(ask, best, limit) {
        var q := h.levels[best];
        QueuePrices(ask, taker, limit, qty, q, best);
        var m := MatchQueue(ask, taker, limit, qty, q);
        if m.book == [] {
          LevelsShrink(h.levels, best);
          TradesAreVisible(ask, taker, limit, m.rest, Pruned(ask, h).(levels := h.levels - {best}));
        }
      }
    }
  }

  lemma {:induction false} QueuePrices(ask: bool, taker: nat, limit: int, qty: int, q: seq<Order>, p: int)
    requires forall o :: o in q ==> o.price == p
    ensures forall t :: t in MatchQueue(ask, taker, limit, qty, q).trades ==> t.price == p
    decreases |q|
  {
    if !(qty <= 0 || q == [] || !Crosses(ask, q[0].price, limit)) && q[0].qty == Min(qty, q[0].qty) {
      QueuePrices(ask, taker, limit, qty - q[0].qty, q[1..], p);
    }
  }

  /** A taker large enough and willing enough trades with the whole queue. */
  lemma {:induction false} SweepTakesAll(ask: bool, taker: nat, limit: int, qty: int, s: seq<Order>, o: Order)
    requires Positive(s) && qty >= SumQty(s) && (forall x :: x in s ==> Crosses(ask, x.price, limit)) && o in s
    ensures exists t :: t in MatchQueue(ask, taker, limit, qty, s).trades && t.price == o.price
    decreases |s|
  {
    SumPositive(s[1..]);
    var m := MatchQueue(ask, taker, limit, qty, s);
    assert m.trades[0].price == s[0].price;
    assert s[0].qty <= qty;
    if o != s[0] {
      SweepTakesAll(ask, taker, limit, qty - s[0].qty, s[1..], o);
      var t :| t in MatchQueue(ask, taker, limit, qty - s[0].qty, s[1..]).trades && t.price == o.price;
      assert t in m.trades;
    }
  }

  lemma SumPositive(s: seq<Order>)
    requires Positive(s)
    ensures SumQty(s) >= 0
  {
  }

  /** The worst price of a sorted queue crosses for every order in it. */
  lemma LastCrosses(ask: bool, s: seq<Order>)
    requires Sorted(ask, s) && s != []
    ensures forall x :: x in s ==> Crosses(ask, x.price, s[|s| - 1].price)
  {
  }

  /** The heap side trades as the reference queue does with every possible taker if and only if
      each of its live prices is in the heap. */
  lemma AgreesIffHealthy(ask: bool, h: Half, s: seq<Order>)
    requires Rel(ask, h.levels, s) && Positive(s)
    ensures AgreesOnEveryTaker(ask, h, s) <==> Healthy(h)
  {
    if Healthy(h) {
      forall taker: nat, limit, qty
        ensures MatchHalf(ask, taker, limit, qty, h).trades == MatchQueue(ask, taker, limit, qty, s).trades
      {
        MatchHalfRefines(ask, taker, limit, qty, h, s);
      }
    } else {
      var p :| p in h.levels && h.levels[p] != [] && p !in h.heap;
      var o := h.levels[p][0];
      RelKeyed(ask, h.levels, s);
      RelMember(ask, h.levels, s, o);
      var limit, qty := s[|s| - 1].price, SumQty(s);
      LastCrosses(ask, s);
      SweepTakesAll(ask, 0, limit, qty, s, o);
      TradesAreVisible(ask, 0, limit, qty, h);
      assert MatchHalf(ask, 0, limit, qty, h).trades != MatchQueue(ask, 0, limit, qty, s).trades;
    }
  }

  /** For histories that submit an id once: the heap book can serve every possible next taker as
      the slice book would, after every prefix of the history, if and only if no submit of the
      history traps. */
  lemma AgreesIffTrapFree(cs: seq<Command>)
    requires OncePerId(cs)
    ensures TrapFree(cs) <==>
            forall k :: 0 <= k <= |cs| ==>
              && AgreesOnEveryTaker(true, RunBuckets(cs[..k]).asks, Run(cs[..k]).asks)
              && AgreesOnEveryTaker(false, RunBuckets(cs[..k]).bids, Run(cs[..k]).bids)
  {
    if TrapFree(cs) {
      forall k | 0 <= k <= |cs|
        ensures AgreesOnEveryTaker(true, RunBuckets(cs[..k]).asks, Run(cs[..k]).asks)
        ensures AgreesOnEveryTaker(false, RunBuckets(cs[..k]).bids, Run(cs[..k]).bids)
      {
        RunRefines(cs, k);
        assert OncePerId(cs[..k]);
        RunValid(cs[..k]);
        AgreesIffHealthy(true, RunBuckets(cs[..k]).asks, Run(cs[..k]).asks);
        AgreesIffHealthy(false, RunBuckets(cs[..k]).bids, Run(cs[..k]).bids);
      }
    } else {
      var j :| 0 <= j < |cs| && Traps(RunBuckets(cs[..j]), cs[j]);
      var k := FirstTrap(cs, j);
      FirstTrapShows(cs, k);
    }
  }

  lemma {:induction false} FirstTrap(cs: seq<Command>, j: nat) returns (k: nat)
    requires j < |cs| && Traps(RunBuckets(cs[..j]), cs[j])
    ensures k <= j && Traps(RunBuckets(cs[..k]), cs[k]) && TrapFree(cs[..k])
    decreases j
  {
    if TrapFree(cs[..j]) {
      k := j;
    } else {
      var i :| 0 <= i < j && Traps(RunBuckets(cs[..j][..i]), cs[..j][i]);
      assert cs[..j][..i] == cs[..i];
      k := FirstTrap(cs, i);
    }
  }

  lemma FirstTrapShows(cs: seq<Command>, k: nat)
    requires OncePerId(cs) && k < |cs| && Traps(RunBuckets(cs[..k]), cs[k]) && TrapFree(cs[..k])
    ensures !AgreesOnEveryTaker(true, RunBuckets(cs[..k + 1]).asks, Run(cs[..k + 1]).asks)
  {
    var before, o := cs[..k], cs[k].order;
    assert OncePerId(before);
    RunValid(before);
    RunRefines(before, k);
    assert before[..k] == before;
    FreshSubmit(cs, k);
    SubmitRefines(RunBuckets(before), Run(before), o);
    SubmitKeepsValid(Run(before), o);
    assert cs[..k + 1][..k] == before;
    AgreesIffHealthy(true, RunBuckets(cs[..k + 1]).asks, Run(cs[..k + 1]).asks);
  }
}
