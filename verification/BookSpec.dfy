/** The price-time-priority book on two sorted sequences: the reference the pointer books refine.
    Matching is given twice: as the recursion the matcher performs, and as a contract that
    determines its result. */
module BookSpec {
  import opened Basics
  import opened Orders

  /** Stable insertion: after every order that is better or equal, before every worse one. */
  function Inserted(ask: bool, s: seq<Order>, o: Order): seq<Order> {
    if s == [] then [o]
    else if Better(ask, o.price, s[0].price) then [o] + s
    else [s[0]] + Inserted(ask, s[1..], o)
  }

  datatype Match = Match(trades: seq<Trade>, rest: int, book: seq<Order>)

  /** Walks one side of the book from its best order. */
  function MatchQueue(ask: bool, taker: nat, limit: int, qty: int, s: seq<Order>): Match
    decreases |s|
  {
    if qty <= 0 || s == [] || !Crosses(ask, s[0].price, limit) then
      Match([], qty, s)
    else
      var exec := Min(qty, s[0].qty);
      var t := Trade(taker, s[0].id, s[0].price, exec);
      if s[0].qty == exec then
        var r := MatchQueue(ask, taker, limit, qty - exec, s[1..]);
        r.(trades := [t] + r.trades)
      else
        Match([t], qty - exec, [s[0].(qty := s[0].qty - exec)] + s[1..])
  }

  /** A match whose first trades are already on the list. */
  ghost function Onto(trades: seq<Trade>, m: Match): Match {
    m.(trades := trades + m.trades)
  }

  lemma OntoNothing(m: Match)
    ensures Onto([], m) == m
  {
    assert [] + m.trades == m.trades;
  }

  /** The queue after its first order gave up exec. */
  ghost function AfterTurn(s: seq<Order>, exec: int): seq<Order>
    requires s != []
  {
    if s[0].qty == exec then s[1..] else [s[0].(qty := s[0].qty - exec)] + s[1..]
  }

  /** One turn of a matching loop. */
  lemma MatchOne(ask: bool, taker: nat, limit: int, qty: int, s: seq<Order>, trades: seq<Trade>)
    requires qty > 0 && s != [] && Crosses(ask, s[0].price, limit)
    ensures var exec := Min(qty, s[0].qty);
            var trades' := trades + [Trade(taker, s[0].id, s[0].price, exec)];
            && Onto(trades, MatchQueue(ask, taker, limit, qty, s))
               == Onto(trades', MatchQueue(ask, taker, limit, qty - exec, AfterTurn(s, exec)))
            && (s[0].qty != exec ==> qty == exec)
  {
    var exec := Min(qty, s[0].qty);
    var t := Trade(taker, s[0].id, s[0].price, exec);
    var ts := MatchQueue(ask, taker, limit, qty - exec, AfterTurn(s, exec)).trades;
    assert trades + ([t] + ts) == (trades + [t]) + ts;
    assert trades + [t] == (trades + [t]) + [];
  }

  /** What a match must do, said without saying how: the makers hit are the first k orders in
      queue order, all but the last are filled completely, quantity is conserved, and a positive
      rest means the best remaining order does not cross. */
  ghost predicate MatchContract(ask: bool, taker: nat, limit: int, qty: int, s: seq<Order>, r: Match) {
    && Hits(ask, taker, limit, s, r.trades)
    && FullButLast(s, r.trades)
    && Traded(r.trades) + r.rest == qty
    && r.rest >= 0
    && r.book == Leftover(s, r.trades)
    && (r.rest > 0 ==> r.book == [] || !Crosses(ask, r.book[0].price, limit))
  }

  /** The trades are with the first orders of the queue, one each, at their price and within the limit. */
  ghost predicate Hits(ask: bool, taker: nat, limit: int, s: seq<Order>, ts: seq<Trade>) {
    && |ts| <= |s|
    && forall i :: 0 <= i < |ts| ==>
         && ts[i].taker == taker
         && ts[i].maker == s[i].id
         && ts[i].price == s[i].price
         && Crosses(ask, s[i].price, limit)
         && 0 < ts[i].qty <= s[i].qty
  }

  ghost predicate FullButLast(s: seq<Order>, ts: seq<Trade>) {
    |ts| <= |s| && forall i :: 0 <= i < |ts| - 1 ==> ts[i].qty == s[i].qty
  }

  /** The orders that were not hit, and before them what is left of the last one that was. */
  ghost function Leftover(s: seq<Order>, ts: seq<Trade>): seq<Order>
    requires |ts| <= |s|
  {
    var k := |ts|;
    if k > 0 && ts[k - 1].qty < s[k - 1].qty then [s[k - 1].(qty := s[k - 1].qty - ts[k - 1].qty)] + s[k..] else s[k..]
  }

  /** A first order filled completely, in front of a match of the rest of the queue. */
  lemma HitsCons(ask: bool, taker: nat, limit: int, s: seq<Order>, t: Trade, ts: seq<Trade>)
    requires s != [] && |ts| < |s|
    requires t == Trade(taker, s[0].id, s[0].price, s[0].qty) && t.qty > 0 && Crosses(ask, s[0].price, limit)
    ensures Hits(ask, taker, limit, s, [t] + ts) <==> Hits(ask, taker, limit, s[1..], ts)
  {
    hide Crosses;
    var all := [t] + ts;
    if Hits(ask, taker, limit, s, all) {
      forall i | 0 <= i < |ts|
        ensures ts[i] == all[i + 1] && s[1..][i] == s[i + 1]
      {
      }
    }
  }

  lemma FullCons(s: seq<Order>, t: Trade, ts: seq<Trade>)
    requires s != [] && |ts| < |s| && t.qty == s[0].qty
    ensures FullButLast(s, [t] + ts) <==> FullButLast(s[1..], ts)
  {
    var all := [t] + ts;
    if FullButLast(s, all) {
      forall i | 0 <= i < |ts|
        ensures ts[i] == all[i + 1] && s[1..][i] == s[i + 1]
      {
      }
    }
  }

  lemma LeftoverCons(s: seq<Order>, t: Trade, ts: seq<Trade>)
    requires s != [] && |ts| < |s| && t.qty == s[0].qty
    ensures Leftover(s, [t] + ts) == Leftover(s[1..], ts)
  {
    var k, all, rest := |ts|, [t] + ts, s[1..];
    assert rest[k..] == s[k + 1..];
    if k > 0 {
      assert all[k] == ts[k - 1] && rest[k - 1] == s[k];
      LeftoverIs(s, all);
      LeftoverIs(rest, ts);
    } else {
      assert all[0] == t;
      LeftoverIs(s, all);
    }
    hide Leftover;
  }

  lemma LeftoverIs(s: seq<Order>, ts: seq<Trade>)
    requires 0 < |ts| <= |s|
    ensures var k := |ts|; var o := s[k - 1];
            Leftover(s, ts) == (if ts[k - 1].qty < o.qty then [o.(qty := o.qty - ts[k - 1].qty)] else []) + s[k..]
  {
  }

  /** Filling the best order completely and matching the rest of the queue correctly is correct, and the
      other way round. */
  lemma ContractCons(ask: bool, taker: nat, limit: int, qty: int, s: seq<Order>, r: Match)
    requires s != [] && 0 < s[0].qty && Crosses(ask, s[0].price, limit)
    ensures MatchContract(ask, taker, limit, qty, s,
                          r.(trades := [Trade(taker, s[0].id, s[0].price, s[0].qty)] + r.trades))
            <==> MatchContract(ask, taker, limit, qty - s[0].qty, s[1..], r)
  {
    if |r.trades| < |s| {
      var t := Trade(taker, s[0].id, s[0].price, s[0].qty);
      HitsCons(ask, taker, limit, s, t, r.trades);
      FullCons(s, t, r.trades);
      LeftoverCons(s, t, r.trades);
      TradedCons(t, r.trades);
      hide Hits, FullButLast, Leftover, Traded, Crosses;
    }
  }

  lemma TradedCons(t: Trade, ts: seq<Trade>)
    ensures Traded([t] + ts) == t.qty + Traded(ts)
  {
    assert ([t] + ts)[1..] == ts;
  }

  /** Conversely, a correct match of more than one maker is correct on the rest of the queue. */
  lemma ContractTail(ask: bool, taker: nat, limit: int, qty: int, s: seq<Order>, r: Match)
    requires MatchContract(ask, taker, limit, qty, s, r) && r.trades != [] && r.trades[0].qty == s[0].qty
    ensures MatchContract(ask, taker, limit, qty - s[0].qty, s[1..], r.(trades := r.trades[1..]))
  {
    var rest := r.(trades := r.trades[1..]);
    assert r.trades == [r.trades[0]] + rest.trades;
    ContractCons(ask, taker, limit, qty, s, rest);
    assert r == rest.(trades := [Trade(taker, s[0].id, s[0].price, s[0].qty)] + rest.trades);
    hide MatchContract;
  }

  lemma ContractNone(ask: bool, taker: nat, limit: int, qty: int, s: seq<Order>)
    requires qty == 0 || (qty > 0 && (s == [] || !Crosses(ask, s[0].price, limit)))
    ensures MatchContract(ask, taker, limit, qty, s, Match([], qty, s))
  {
    assert s[0..] == s;
  }

  lemma ContractPartial(ask: bool, taker: nat, limit: int, qty: int, s: seq<Order>)
    requires s != [] && 0 < qty < s[0].qty && Crosses(ask, s[0].price, limit)
    ensures MatchContract(ask, taker, limit, qty, s,
                          Match([Trade(taker, s[0].id, s[0].price, qty)], 0,
                                [s[0].(qty := s[0].qty - qty)] + s[1..]))
  {
    var t := Trade(taker, s[0].id, s[0].price, qty);
    assert [t][1..] == [];
    assert Traded([t]) == qty;
    var r := Match([t], 0, [s[0].(qty := s[0].qty - qty)] + s[1..]);
    assert r.trades[0] == t && |r.trades| == 1;
  }

  lemma {:induction false} MatchMeetsContract(ask: bool, taker: nat, limit: int, qty: int, s: seq<Order>)
    requires Positive(s) && qty >= 0
    ensures MatchContract(ask, taker, limit, qty, s, MatchQueue(ask, taker, limit, qty, s))
    decreases |s|
  {
    hide MatchContract;
    if qty <= 0 || s == [] || !Crosses(ask, s[0].price, limit) {
      ContractNone(ask, taker, limit, qty, s);
    } else if s[0].qty <= qty {
      MatchMeetsContract(ask, taker, limit, qty - s[0].qty, s[1..]);
      ContractCons(ask, taker, limit, qty, s, MatchQueue(ask, taker, limit, qty - s[0].qty, s[1..]));
    } else {
      ContractPartial(ask, taker, limit, qty, s);
    }
  }

  /** The contract leaves no freedom: a body that swaps two makers, skips one or stops early
      breaks it. */
  lemma ContractDeterminesMatch(ask: bool, taker: nat, limit: int, qty: int, s: seq<Order>, r: Match)
    requires Positive(s) && qty >= 0
    ensures MatchContract(ask, taker, limit, qty, s, r) <==> r == MatchQueue(ask, taker, limit, qty, s)
  {
    hide MatchContract;
    MatchMeetsContract(ask, taker, limit, qty, s);
    if MatchContract(ask, taker, limit, qty, s, r) {
      ContractImpliesMatch(ask, taker, limit, qty, s, r);
    }
  }

  lemma {:induction false} ContractImpliesMatch(ask: bool, taker: nat, limit: int, qty: int, s: seq<Order>, r: Match)
    requires Positive(s) && MatchContract(ask, taker, limit, qty, s, r)
    ensures r == MatchQueue(ask, taker, limit, qty, s)
    decreases |s|
  {
    hide MatchContract;
    ContractHead(ask, taker, limit, qty, s, r);
    if r.trades != [] {
      var t := r.trades[0];
      assert r.trades == [t] + r.trades[1..];
      if t.qty == s[0].qty {
        ContractTail(ask, taker, limit, qty, s, r);
        ContractImpliesMatch(ask, taker, limit, qty - t.qty, s[1..], r.(trades := r.trades[1..]));
      }
    }
  }

  /** What the contract fixes about the first maker. */
  lemma ContractHead(ask: bool, taker: nat, limit: int, qty: int, s: seq<Order>, r: Match)
    requires Positive(s) && MatchContract(ask, taker, limit, qty, s, r)
    ensures r.trades == [] ==> r == Match([], qty, s) && (qty > 0 ==> s == [] || !Crosses(ask, s[0].price, limit)) && qty >= 0
    ensures r.trades != [] ==>
              && s != [] && 0 < r.trades[0].qty <= qty && Crosses(ask, s[0].price, limit)
              && r.trades[0] == Trade(taker, s[0].id, s[0].price, r.trades[0].qty)
              && r.trades[0].qty <= s[0].qty
              && (r.trades[0].qty < s[0].qty ==>
                    r == Match([r.trades[0]], 0, [s[0].(qty := s[0].qty - qty)] + s[1..]) && r.trades[0].qty == qty)
  {
    if r.trades == [] {
      assert s[0..] == s;
    } else {
      TradedNonNegative(r.trades[1..]);
      if r.trades[0].qty < s[0].qty {
        assert |r.trades| == 1;
        assert r.trades[1..] == [];
        assert r.trades == [r.trades[0]];
      }
    }
  }

  lemma TradedNonNegative(ts: seq<Trade>)
    requires forall i :: 0 <= i < |ts| ==> ts[i].qty > 0
    ensures Traded(ts) >= 0
  {
  }

  // ---- what matching leaves behind ---------------------------------------------------------

  /** What stays in the queue is a suffix of it, only its first order possibly reduced. */
  ghost predicate Remains(s: seq<Order>, t: seq<Order>) {
    && |t| <= |s|
    && var u := s[|s| - |t|..];
       t == u || (t != [] && 0 < t[0].qty < u[0].qty && t == [u[0].(qty := t[0].qty)] + u[1..])
  }

  lemma {:induction false} MatchRemains(ask: bool, taker: nat, limit: int, qty: int, s: seq<Order>)
    requires Positive(s)
    ensures Remains(s, MatchQueue(ask, taker, limit, qty, s).book)
    decreases |s|
  {
    var t := MatchQueue(ask, taker, limit, qty, s).book;
    if qty <= 0 || s == [] || !Crosses(ask, s[0].price, limit) {
    } else if s[0].qty <= qty {
      MatchRemains(ask, taker, limit, qty - s[0].qty, s[1..]);
      hide MatchQueue, Crosses;
      assert s[1..][|s[1..]| - |t|..] == s[|s| - |t|..];
    }
  }

  lemma RemainsKeeps(ask: bool, s: seq<Order>, t: seq<Order>)
    requires Remains(s, t) && Sorted(ask, s) && Positive(s)
    ensures Sorted(ask, t) && Positive(t)
    ensures DistinctIds(s) ==> DistinctIds(t)
    ensures forall o :: o in t ==> exists i :: 0 <= i < |s| && s[i].id == o.id && s[i].price == o.price && s[i].side == o.side
  {
  }

  /** A positive rest means that no order left on the side crosses the limit. */
  lemma {:induction false} RestMeansNoCross(ask: bool, taker: nat, limit: int, qty: int, s: seq<Order>)
    requires Sorted(ask, s) && Positive(s)
    ensures var r := MatchQueue(ask, taker, limit, qty, s);
            r.rest > 0 ==> forall o :: o in r.book ==> !Crosses(ask, o.price, limit)
    decreases |s|
  {
    if !(qty <= 0 || s == [] || !Crosses(ask, s[0].price, limit)) && s[0].qty <= qty {
      RestMeansNoCross(ask, taker, limit, qty - s[0].qty, s[1..]);
    }
  }

  /** Trades walk away from the best price and never past the limit. */
  lemma TradePricesMonotone(ask: bool, taker: nat, limit: int, qty: int, s: seq<Order>)
    requires Sorted(ask, s) && Positive(s) && qty >= 0
    ensures var ts := MatchQueue(ask, taker, limit, qty, s).trades;
            && (forall i, j :: 0 <= i < j < |ts| ==> !Better(ask, ts[j].price, ts[i].price))
            && (forall i :: 0 <= i < |ts| ==> Crosses(ask, ts[i].price, limit))
  {
    MatchMeetsContract(ask, taker, limit, qty, s);
  }

  // ---- stable insertion -------------------------------------------------------------------

  lemma {:induction false} InsertedAt(ask: bool, s: seq<Order>, o: Order, k: nat)
    requires k <= |s|
    requires forall i :: 0 <= i < k ==> !Better(ask, o.price, s[i].price)
    requires k < |s| ==> Better(ask, o.price, s[k].price)
    ensures Inserted(ask, s, o) == s[..k] + [o] + s[k..]
  {
    hide Better;
    if k == 0 {
      assert s[..0] + [o] + s[0..] == [o] + s;
    } else {
      InsertedAt(ask, s[1..], o, k - 1);
      hide Inserted;
      assert s[1..][k - 1..] == s[k..];
      Prepended(s[0], s[1..][..k - 1], o, s[k..]);
      assert s[..k] == [s[0]] + s[1..][..k - 1];
    }
  }

  lemma Prepended(x: Order, a: seq<Order>, o: Order, b: seq<Order>)
    ensures [x] + (a + [o] + b) == [x] + a + [o] + b
  {
  }

  lemma InsertedKeeps(ask: bool, s: seq<Order>, o: Order)
    requires Sorted(ask, s)
    ensures Sorted(ask, Inserted(ask, s, o))
    ensures multiset(Inserted(ask, s, o)) == multiset(s) + multiset{o}
    ensures forall x :: x in Inserted(ask, s, o) <==> x == o || x in s
  {
    InsertedSorts(ask, s, o);
    InsertedBag(ask, s, o);
    var t := Inserted(ask, s, o);
    hide Inserted, Sorted;
    assert forall x :: x in t <==> x in multiset(t);
    assert forall x :: x in s <==> x in multiset(s);
  }

  lemma BagFront(x: Order, s: seq<Order>)
    ensures multiset([x] + s) == multiset(s) + multiset{x}
  {
  }

  lemma BagGrows(x: Order, s: seq<Order>, r: seq<Order>, o: Order)
    requires multiset(r) == multiset(s) + multiset{o}
    ensures multiset([x] + r) == multiset([x] + s) + multiset{o}
  {
    BagFront(x, s);
    BagFront(x, r);
  }

  lemma {:induction false} InsertedBag(ask: bool, s: seq<Order>, o: Order)
    ensures multiset(Inserted(ask, s, o)) == multiset(s) + multiset{o}
  {
    hide Better;
    if s == [] {
      BagFront(o, s);
      assert [o] + s == [o];
    } else if Better(ask, o.price, s[0].price) {
      BagFront(o, s);
    } else {
      InsertedBag(ask, s[1..], o);
      BagGrows(s[0], s[1..], Inserted(ask, s[1..], o), o);
      assert s == [s[0]] + s[1..];
    }
  }

  lemma {:induction false} InsertedSorts(ask: bool, s: seq<Order>, o: Order)
    requires Sorted(ask, s)
    ensures Sorted(ask, Inserted(ask, s, o))
  {
    if s == [] {
    } else if Better(ask, o.price, s[0].price) {
      SortedCons(ask, o, s);
    } else {
      InsertedSorts(ask, s[1..], o);
      InsertedHead(ask, s[1..], o);
      SortedCons(ask, s[0], Inserted(ask, s[1..], o));
    }
  }

  lemma InsertedHead(ask: bool, s: seq<Order>, o: Order)
    ensures var t := Inserted(ask, s, o); t != [] && (t[0] == o || (s != [] && t[0] == s[0]))
  {
  }

  lemma SortedCons(ask: bool, h: Order, t: seq<Order>)
    requires Sorted(ask, t) && (t == [] || !Better(ask, t[0].price, h.price))
    ensures Sorted(ask, [h] + t)
  {
  }
}
