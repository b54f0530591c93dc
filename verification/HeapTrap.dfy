/** A shortest history in which the heap book loses an order: an ask is cancelled, a buy drains the
    stale heap entry, and the next ask at that price finds the old level object and is not pushed. */
module HeapTrap {
  import opened Orders
  import opened BookSpec
  import opened BookRuns
  import opened HeapModel
  import opened HeapRefinement

  const ASK1 := Order(1, SELL, 10, 5, 0)
  const BID2 := Order(2, BUY, 9, 1, 0)
  const ASK3 := Order(3, SELL, 10, 5, 0)

  const LOSING := [Submit(ASK1), Cancel(1), Submit(BID2), Submit(ASK3)]

  lemma Invisible(ask: bool, taker: nat, limit: int, qty: int, h: Half)
    requires qty > 0 && forall p :: p in h.levels && h.levels[p] != [] ==> p !in h.heap
    ensures MatchHalf(ask, taker, limit, qty, h) == HalfMatch([], qty, h.(heap := {}))
  {
    forall p
      ensures p !in Visible(h)
    {
    }
  }

  lemma AfterAsk()
    ensures SubmitBuckets(NOTHING, ASK1).0 == Buckets(Half(map[], {}), Half(map[10 := [ASK1]], {10}))
  {
    Invisible(false, 1, 10, 5, NOTHING.bids);
  }

  lemma AfterCancel()
    ensures CancelBuckets(Buckets(Half(map[], {}), Half(map[10 := [ASK1]], {10})), 1).0
            == Buckets(Half(map[], {}), Half(map[10 := []], {10}))
  {
    var b := Buckets(Half(map[], {}), Half(map[10 := [ASK1]], {10}));
    assert At(b, true, 10, 0, 1);
    assert forall ask, p, i: nat :: At(b, ask, p, i, 1) ==> ask && p == 10 && i == 0;
    assert Without([ASK1], 0) == [];
    assert Unlinked(b, true, 10, 0).bids.levels == map[];
  }

  lemma AfterBid()
    ensures SubmitBuckets(Buckets(Half(map[], {}), Half(map[10 := []], {10})), BID2).0
            == Buckets(Half(map[9 := [BID2]], {9}), Half(map[10 := []], {}))
  {
    Invisible(true, 2, 9, 1, Half(map[10 := []], {10}));
  }

  lemma AfterLostAsk()
    ensures var b := Buckets(Half(map[9 := [BID2]], {9}), Half(map[10 := []], {}));
            && Traps(b, Submit(ASK3))
            && SubmitBuckets(b, ASK3).0.asks == Half(map[10 := [ASK3]], {})
  {
    var bids := Half(map[9 := [BID2]], {9});
    assert 9 in Visible(bids);
    assert Visible(bids) == {9};
    BestIs(false, Visible(bids), 9);
    assert MatchHalf(false, 3, 10, 5, bids) == HalfMatch([], 5, Pruned(false, bids));
    var b' := MatchBuckets(Buckets(bids, Half(map[10 := []], {})), ASK3).0;
    assert b'.bids.levels == bids.levels;
    assert forall ask, p, i: nat :: !At(b', ask, p, i, 3);
    assert !Indexed(b', 3);
    assert ASK3.(qty := 5) == ASK3;
    assert [] + [ASK3] == [ASK3];
    assert AddHalf(b'.asks, ASK3).levels == map[10 := [ASK3]];
  }

  lemma ReferenceRests()
    ensures Run(LOSING).asks == [ASK3]
  {
    assert LOSING[..3] == [Submit(ASK1), Cancel(1), Submit(BID2)];
    assert LOSING[..3][..2] == [Submit(ASK1), Cancel(1)];
    assert LOSING[..3][..2][..1] == [Submit(ASK1)];
    assert LOSING[..3][..2][..1][..0] == [];
    assert Run([Submit(ASK1)]) == Book([], [ASK1]);
    assert Run([Submit(ASK1), Cancel(1)]) == EMPTY;
    assert Run([Submit(ASK1), Cancel(1), Submit(BID2)]) == Book([BID2], []);
  }

  lemma HeapRuns()
    ensures RunBuckets(LOSING[..3]) == Buckets(Half(map[9 := [BID2]], {9}), Half(map[10 := []], {}))
    ensures RunBuckets(LOSING).asks == Half(map[10 := [ASK3]], {})
  {
    hide SubmitBuckets, CancelBuckets;
    assert LOSING[..0] == [] && LOSING[..1][..0] == [] && LOSING[..2][..1] == LOSING[..1];
    assert LOSING[..3][..2] == LOSING[..2] && LOSING[..|LOSING| - 1] == LOSING[..3];
    AfterAsk();
    assert RunBuckets(LOSING[..1]) == Buckets(Half(map[], {}), Half(map[10 := [ASK1]], {10}));
    AfterCancel();
    assert RunBuckets(LOSING[..2]) == Buckets(Half(map[], {}), Half(map[10 := []], {10}));
    AfterBid();
    assert RunBuckets(LOSING[..3]) == Buckets(Half(map[9 := [BID2]], {9}), Half(map[10 := []], {}));
    AfterLostAsk();
  }

  /** After the history a buy at 10 trades with order 3 in the slice book and with nothing in the
      heap book, although order 3 rests in both. */
  lemma LosingHistory()
    ensures OncePerId(LOSING) && !TrapFree(LOSING)
    ensures MatchQueue(true, 4, 10, 5, Run(LOSING).asks).trades == [Trade(4, 3, 10, 5)]
    ensures MatchHalf(true, 4, 10, 5, RunBuckets(LOSING).asks).trades == []
    ensures Queue(RunBuckets(LOSING).asks.levels, 10) == [ASK3]
  {
    HeapRuns();
    AfterLostAsk();
    ReferenceRests();
    Invisible(true, 4, 10, 5, RunBuckets(LOSING).asks);
    assert Traps(RunBuckets(LOSING[..3]), LOSING[3]);
  }
}
