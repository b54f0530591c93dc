/** The bucketed book on values: price levels, and the set of prices each lazy heap still knows.
    The pointer book is proved to follow these functions; here they are proved to follow the
    sorted-slice book, and the exact point where they stop doing so is found. */
module HeapModel {
  import opened Basics
  import opened Orders
  import opened BookSpec
  import opened BookRuns

  /** One side: the level map (a level may be empty) and the prices present in the heap. */
  datatype Half = Half(levels: map<int, seq<Order>>, heap: set<int>)

  datatype HalfMatch = HalfMatch(trades: seq<Trade>, rest: int, half: Half)

  datatype Buckets = Buckets(bids: Half, asks: Half) {
    function Side(ask: bool): Half {
      if ask then asks else bids
    }

    function With(ask: bool, h: Half): Buckets {
      if ask then this.(asks := h) else this.(bids := h)
    }
  }

  const NOTHING := Buckets(Half(map[], {}), Half(map[], {}))

  function Queue(levels: map<int, seq<Order>>, p: int): seq<Order> {
    if p in levels then levels[p] else []
  }

  /** Prices with at least one order that the heap can still find. */
  ghost function Visible(h: Half): set<int> {
    set p | p in h.levels && h.levels[p] != [] && p in h.heap
  }

  /** Every price with an order is in the heap. */
  ghost predicate Healthy(h: Half) {
    forall p :: p in h.levels && h.levels[p] != [] ==> p in h.heap
  }

  ghost predicate Keyed(levels: map<int, seq<Order>>) {
    forall p, i :: p in levels && 0 <= i < |levels[p]| ==> levels[p][i].price == p
  }

  ghost function BestOf(ask: bool, ps: set<int>): (b: int)
    requires ps != {}
    ensures b in ps && forall x :: x in ps ==> !Better(ask, x, b)
  {
    var x := Pick(ps);
    if ps == {x} then x
    else
      var y := BestOf(ask, ps - {x});
      assert ps == (ps - {x}) + {x};
      if Better(ask, x, y) then x else y
  }

  lemma BestIs(ask: bool, ps: set<int>, b: int)
    requires b in ps && forall x :: x in ps ==> !Better(ask, x, b)
    ensures BestOf(ask, ps) == b
  {
  }

  /** The heap after a best-price query: everything better than the best visible price is gone. */
  ghost function Pruned(ask: bool, h: Half): Half {
    if Visible(h) == {} then h.(heap := {})
    else h.(heap := set x | x in h.heap && !Better(ask, x, BestOf(ask, Visible(h))))
  }

  ghost function MatchHalf(ask: bool, taker: nat, limit: int, qty: int, h: Half): HalfMatch
    decreases |h.levels|
  {
    if qty <= 0 then HalfMatch([], qty, h)
    else
      var h1 := Pruned(ask, h);
      if Visible(h) == {} then HalfMatch([], qty, h1)
      else
        var best := BestOf(ask, Visible(h));
        if !Crosses(ask, best, limit) then HalfMatch([], qty, h1)
        else
          var m := MatchQueue(ask, taker, limit, qty, h.levels[best]);
          if m.book != [] then HalfMatch(m.trades, m.rest, h1.(levels := h.levels[best := m.book]))
          else
            var h2 := h1.(levels := h.levels - {best});
            LevelsShrink(h.levels, best);
            var r := MatchHalf(ask, taker, limit, m.rest, h2);
            r.(trades := m.trades + r.trades)
  }

  lemma LevelsShrink(levels: map<int, seq<Order>>, p: int)
    requires p in levels
    ensures |levels - {p}| < |levels|
  {
    assert (levels - {p}).Keys == levels.Keys - {p};
  }

  /** Appends to the level; only a price with no level object at all is pushed on the heap. */
  function AddHalf(h: Half, o: Order): Half {
    if o.price in h.levels then h.(levels := h.levels[o.price := h.levels[o.price] + [o]])
    else Half(h.levels[o.price := [o]], h.heap + {o.price})
  }

  ghost predicate At(b: Buckets, ask: bool, p: int, i: nat, id: nat) {
    p in b.Side(ask).levels && i < |b.Side(ask).levels[p]| && b.Side(ask).levels[p][i].id == id
  }

  ghost predicate Indexed(b: Buckets, id: nat) {
    exists ask, p, i: nat :: At(b, ask, p, i, id)
  }

  /** Unlinks the order. The node's side is wiped before it is tested, so an emptied level is
      always looked up, and deleted, among the bids. */
  ghost function Unlinked(b: Buckets, ask: bool, p: int, i: nat): Buckets
    requires p in b.Side(ask).levels && i < |b.Side(ask).levels[p]|
  {
    var h := b.Side(ask);
    var q := Without(h.levels[p], i);
    var b' := b.With(ask, h.(levels := h.levels[p := q]));
    if q == [] then b'.(bids := b'.bids.(levels := b'.bids.levels - {p})) else b'
  }

  ghost function CancelBuckets(b: Buckets, id: nat): (Buckets, Outcome) {
    if Indexed(b, id) then
      var ask, p, i: nat :| At(b, ask, p, i, id);
      (Unlinked(b, ask, p, i), Cancelled(true))
    else (b, Cancelled(false))
  }

  ghost function AddBuckets(b: Buckets, o: Order): Buckets {
    if o.qty <= 0 || Indexed(b, o.id) || !(o.side == BUY || o.side == SELL) then b
    else b.With(o.side == SELL, AddHalf(b.Side(o.side == SELL), o))
  }

  /** Matches a taker; nothing is rested here. */
  ghost function MatchBuckets(b: Buckets, o: Order): (Buckets, seq<Trade>, int) {
    if o.qty <= 0 then (b, [], 0)
    else if !(o.side == BUY || o.side == SELL) then (b, [], o.qty)
    else
      var ask := o.side == BUY;
      var m := MatchHalf(ask, o.id, o.price, o.qty, b.Side(ask));
      (b.With(ask, m.half), m.trades, m.rest)
  }

  ghost function SubmitBuckets(b: Buckets, o: Order): (Buckets, Outcome) {
    var (b', trades, rest) := MatchBuckets(b, o);
    (if rest > 0 then AddBuckets(b', o.(qty := rest)) else b', Submitted(trades, rest))
  }

  ghost function StepBuckets(b: Buckets, c: Command): (Buckets, Outcome) {
    match c
    case Submit(o) => SubmitBuckets(b, o)
    case Cancel(id) => CancelBuckets(b, id)
  }
}
