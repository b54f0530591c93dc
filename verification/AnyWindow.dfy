/** The trade aggregator of one symbol for every reorder window, none included: which trades come out
    (internal/quotes/kline/agg.go, TradeAgg). */
module AnyWindow {
  import opened Basics
  import opened Candles
  import opened Watermark

  /** The trade's bucket lies at or below the last one emitted. */
  predicate Passed(cfg: Config, st: SymState, t: Tick)
    requires cfg.interval > 0
  {
    st.hasEmitted && BucketStart(t.ts, cfg.interval, cfg.offset) <= st.last
  }

  /** The trades that are in time when they arrive: inside the window, and for a bucket still to come. */
  ghost function InTime(cfg: Config, sym: string, ts: seq<Tick>): seq<Tick>
    requires cfg.interval > 0
    decreases |ts|
  {
    if ts == [] then []
    else
      var st := RunTicks(cfg, sym, Init(ts)).0;
      InTime(cfg, sym, Init(ts)) + (if IsLate(cfg, st, Last(ts)) || Passed(cfg, st, Last(ts)) then [] else [Last(ts)])
  }

  /** The state without bars that can not be emitted any more. */
  ghost function Lively(st: SymState): SymState {
    st.(bars := map s | s in st.bars && Pending(st, s) :: st.bars[s])
  }

  // ---- dead bars make no difference ----------------------------------------------------------------

  lemma LivelyTaken(cfg: Config, sym: string, st: SymState, t: Tick)
    requires cfg.interval > 0
    ensures Lively(Taken(cfg, sym, st, t)) ==
            if IsLate(cfg, st, t) || Passed(cfg, st, t) then Lively(st).(latest := Latest(st, t))
            else Taken(cfg, sym, Lively(st), t)
  {
    hide BucketStart, Join;
    var a := Lively(Taken(cfg, sym, st, t));
    var b := if IsLate(cfg, st, t) || Passed(cfg, st, t) then Lively(st).(latest := Latest(st, t))
             else Taken(cfg, sym, Lively(st), t);
    assert a.bars == b.bars;
  }

  lemma LivelyReady(st: SymState, watermark: int)
    ensures Ready(Lively(st), watermark) == Ready(st, watermark)
    ensures Ready(st, watermark) <= Lively(st).bars.Keys && Lively(st).latest == st.latest
  {
  }

  lemma LivelyBars(st: SymState, ks: set<int>)
    requires ks <= Lively(st).bars.Keys
    ensures (forall i :: 0 <= i < |Sorted(ks)| ==> Sorted(ks)[i] in st.bars && Sorted(ks)[i] in Lively(st).bars)
    ensures BarsAt(st.bars, Sorted(ks)) == BarsAt(Lively(st).bars, Sorted(ks))
  {
    var order := Sorted(ks);
    assert forall i :: 0 <= i < |order| ==> order[i] in order && order[i] in ks;
  }

  lemma LivelyEmitted(st: SymState, ks: set<int>)
    requires ks <= Lively(st).bars.Keys
    ensures Emitted(st, ks).1 == Emitted(Lively(st), ks).1
    ensures Lively(Emitted(st, ks).0) == Lively(Emitted(Lively(st), ks).0)
  {
    if ks != {} {
      LivelyBars(st, ks);
      GreatestFirst(st, ks);
    } else {
      LivelyTwice(st);
    }
  }

  lemma GreatestFirst(st: SymState, ks: set<int>)
    requires ks <= Lively(st).bars.Keys && ks != {}
    ensures Lively(Emitted(st, ks).0) == Lively(Emitted(Lively(st), ks).0)
  {
    hide Sorted, BarsAt;
    assert Greatest(ks) in ks;
    assert Lively(Emitted(st, ks).0).bars == Lively(Emitted(Lively(st), ks).0).bars;
  }

  lemma LivelyTwice(st: SymState)
    ensures Lively(Lively(st)) == Lively(st)
  {
    assert Lively(Lively(st)).bars == Lively(st).bars;
  }

  /** The emission that ends an offer. */
  ghost function Released(cfg: Config, st: SymState): (SymState, seq<Bar>) {
    Emitted(st, Ready(st, st.latest - cfg.window))
  }

  /** What is emitted and left to be emitted depends on the living bars alone. */
  lemma ReleasedLively(cfg: Config, st: SymState)
    ensures Released(cfg, st).1 == Released(cfg, Lively(st)).1
    ensures Lively(Released(cfg, st).0) == Lively(Released(cfg, Lively(st)).0)
  {
    hide Lively, Emitted, Ready;
    LivelyReady(st, st.latest - cfg.window);
    LivelyEmitted(st, Ready(st, st.latest - cfg.window));
  }

  lemma OfferReleases(cfg: Config, sym: string, st: SymState, t: Tick)
    requires cfg.interval > 0
    ensures Offered(cfg, sym, st, t) == Released(cfg, Taken(cfg, sym, st, t))
  {
    hide Taken, Emitted, Ready;
  }

  lemma SameOffer(cfg: Config, sym: string, a: SymState, b: SymState, t: Tick)
    requires cfg.interval > 0 && Lively(a) == Lively(b)
    ensures Offered(cfg, sym, a, t).1 == Offered(cfg, sym, b, t).1
    ensures Lively(Offered(cfg, sym, a, t).0) == Lively(Offered(cfg, sym, b, t).0)
  {
    hide *;
    SameVerdict(cfg, a, b, t);
    LivelyTaken(cfg, sym, a, t);
    LivelyTaken(cfg, sym, b, t);
    OfferReleases(cfg, sym, a, t);
    OfferReleases(cfg, sym, b, t);
    ReleasedLively(cfg, Taken(cfg, sym, a, t));
    ReleasedLively(cfg, Taken(cfg, sym, b, t));
  }

  lemma SameVerdict(cfg: Config, a: SymState, b: SymState, t: Tick)
    requires cfg.interval > 0 && Lively(a) == Lively(b)
    ensures IsLate(cfg, a, t) == IsLate(cfg, b, t) && Passed(cfg, a, t) == Passed(cfg, b, t) && Latest(a, t) == Latest(b, t)
  {
    assert a.latest == Lively(a).latest && b.latest == Lively(b).latest;
    assert a.last == Lively(a).last && b.last == Lively(b).last;
    assert a.hasEmitted == Lively(a).hasEmitted && b.hasEmitted == Lively(b).hasEmitted;
    hide Lively, BucketStart;
  }

  lemma SameFlush(a: SymState, b: SymState)
    requires Lively(a) == Lively(b)
    ensures Flushed(a).1 == Flushed(b).1
  {
    FlushLively(a);
    FlushLively(b);
  }

  lemma FlushLively(st: SymState)
    ensures Flushed(st).1 == Flushed(Lively(st)).1
  {
    var ks := set s | s in st.bars && Pending(st, s);
    assert ks == set s | s in Lively(st).bars && Pending(Lively(st), s);
    LivelyBars(st, ks);
    hide Sorted, BarsAt, Emitted;
  }

  // ---- every window --------------------------------------------------------------------------------

  lemma OneMoreTick(cfg: Config, sym: string, ts: seq<Tick>, t: Tick)
    requires cfg.interval > 0
    ensures var (st, out) := RunTicks(cfg, sym, ts);
            var (st', es) := Offered(cfg, sym, st, t);
            RunTicks(cfg, sym, ts + [t]) == (st', out + es)
  {
    assert Init(ts + [t]) == ts && Last(ts + [t]) == t;
    hide Offered;
  }

  lemma LivelyInv(cfg: Config, sym: string, st: SymState, out: seq<Bar>, ts: seq<Tick>)
    requires cfg.interval > 0 && Inv(cfg, sym, st, out, ts)
    ensures Lively(st) == st
  {
    AllPending(cfg, sym, st, ts);
    hide Inv;
    assert Lively(st).bars == st.bars;
  }

  lemma TakeKeeps(cfg: Config, sym: string, st: SymState, out: seq<Bar>, ts: seq<Tick>, t: Tick)
    requires cfg.interval > 0 && Inv(cfg, sym, Lively(st), out, ts)
    ensures Inv(cfg, sym, Lively(Taken(cfg, sym, st, t)), out,
                if IsLate(cfg, st, t) || Passed(cfg, st, t) then ts else ts + [t])
  {
    LivelyTaken(cfg, sym, st, t);
    var l := Lively(st);
    assert l.latest == st.latest && l.last == st.last && l.hasEmitted == st.hasEmitted;
    assert Latest(l, t) == Latest(st, t) && IsLate(cfg, l, t) == IsLate(cfg, st, t);
    hide BucketStart, Inv, InvOut, InvPending, Counted, Lively;
    if IsLate(cfg, st, t) || Passed(cfg, st, t) {
      LateKeeps(cfg, sym, l, out, ts, Latest(st, t));
    } else {
      BelowBucket(cfg, sym, l, out, ts, BucketStart(t.ts, cfg.interval, cfg.offset));
      CountKeeps(cfg, sym, l, out, ts, t);
    }
  }

  lemma BelowBucket(cfg: Config, sym: string, st: SymState, out: seq<Bar>, ts: seq<Tick>, b: int)
    requires cfg.interval > 0 && Inv(cfg, sym, st, out, ts) && (st.hasEmitted ==> b > st.last)
    ensures forall e :: e in out ==> e.start < b
  {
    InvParts(cfg, sym, st, out, ts);
    hide Inv, InvPending, Direct, BucketStart;
  }

  lemma {:induction false} RunKeepsInTime(cfg: Config, sym: string, ts: seq<Tick>)
    requires cfg.interval > 0
    ensures Inv(cfg, sym, Lively(RunTicks(cfg, sym, ts).0), RunTicks(cfg, sym, ts).1, InTime(cfg, sym, ts))
    decreases |ts|
  {
    if ts == [] {
      FreshInv(cfg, sym);
    } else {
      LastTick(cfg, sym, ts);
      hide Inv, RunTicks, InTime, Offered, Lively, IsLate, Passed;
      RunKeepsInTime(cfg, sym, Init(ts));
      OfferKeepsInTime(cfg, sym, RunTicks(cfg, sym, Init(ts)).0, RunTicks(cfg, sym, Init(ts)).1, Init(ts), Last(ts));
    }
  }

  lemma LastTick(cfg: Config, sym: string, ts: seq<Tick>)
    requires cfg.interval > 0 && ts != []
    ensures Init(ts) + [Last(ts)] == ts
    ensures var st := RunTicks(cfg, sym, Init(ts)).0;
            && RunTicks(cfg, sym, ts) == (Offered(cfg, sym, st, Last(ts)).0,
                                          RunTicks(cfg, sym, Init(ts)).1 + Offered(cfg, sym, st, Last(ts)).1)
            && InTime(cfg, sym, ts) ==
               if IsLate(cfg, st, Last(ts)) || Passed(cfg, st, Last(ts)) then InTime(cfg, sym, Init(ts))
               else InTime(cfg, sym, Init(ts)) + [Last(ts)]
  {
    hide *;
    LastRun(cfg, sym, ts);
    LastInTime(cfg, sym, ts);
  }

  lemma LastRun(cfg: Config, sym: string, ts: seq<Tick>)
    requires cfg.interval > 0 && ts != []
    ensures Init(ts) + [Last(ts)] == ts
    ensures var st := RunTicks(cfg, sym, Init(ts)).0;
            RunTicks(cfg, sym, ts) == (Offered(cfg, sym, st, Last(ts)).0,
                                       RunTicks(cfg, sym, Init(ts)).1 + Offered(cfg, sym, st, Last(ts)).1)
  {
    hide Offered;
  }

  lemma LastInTime(cfg: Config, sym: string, ts: seq<Tick>)
    requires cfg.interval > 0 && ts != []
    ensures var st := RunTicks(cfg, sym, Init(ts)).0;
            InTime(cfg, sym, ts) ==
            if IsLate(cfg, st, Last(ts)) || Passed(cfg, st, Last(ts)) then InTime(cfg, sym, Init(ts))
            else InTime(cfg, sym, Init(ts)) + [Last(ts)]
  {
    hide RunTicks, Passed, IsLate;
  }

  lemma OfferKeepsInTime(cfg: Config, sym: string, st: SymState, out: seq<Bar>, ts: seq<Tick>, t: Tick)
    requires cfg.interval > 0 && Inv(cfg, sym, Lively(st), out, InTime(cfg, sym, ts))
    ensures Inv(cfg, sym, Lively(Offered(cfg, sym, st, t).0), out + Offered(cfg, sym, st, t).1,
                if IsLate(cfg, st, t) || Passed(cfg, st, t) then InTime(cfg, sym, ts) else InTime(cfg, sym, ts) + [t])
  {
    var kept := if IsLate(cfg, st, t) || Passed(cfg, st, t) then InTime(cfg, sym, ts) else InTime(cfg, sym, ts) + [t];
    hide *;
    TakeKeeps(cfg, sym, st, out, InTime(cfg, sym, ts), t);
    var l := Lively(Taken(cfg, sym, st, t));
    ReleaseKeeps(cfg, sym, l, out, kept);
    OfferReleases(cfg, sym, st, t);
    ReleasedLively(cfg, Taken(cfg, sym, st, t));
  }

  lemma ReleaseKeeps(cfg: Config, sym: string, st: SymState, out: seq<Bar>, ts: seq<Tick>)
    requires cfg.interval > 0 && Inv(cfg, sym, st, out, ts)
    ensures Inv(cfg, sym, Lively(Released(cfg, st).0), out + Released(cfg, st).1, ts)
  {
    hide Lively, Inv, Emitted, Ready;
    EmitKeeps(cfg, sym, st, out, ts);
    LivelyInv(cfg, sym, Released(cfg, st).0, out + Released(cfg, st).1, ts);
  }

  lemma FreshInv(cfg: Config, sym: string)
    requires cfg.interval > 0
    ensures Inv(cfg, sym, Lively(RunTicks(cfg, sym, []).0), RunTicks(cfg, sym, []).1, InTime(cfg, sym, []))
  {
    assert Lively(FRESH).bars == map[];
  }

  /** For every window, none included: the bars emitted up to and including the flush are in increasing
      order, one for every bucket with a trade that was in time, each counting exactly those trades. */
  lemma AnyWindowIsExact(cfg: Config, sym: string, ts: seq<Tick>)
    requires cfg.interval > 0
    ensures Exact(cfg, sym, Closed(cfg, sym, ts), InTime(cfg, sym, ts))
  {
    RunKeepsInTime(cfg, sym, ts);
    var (st, out) := RunTicks(cfg, sym, ts);
    FlushLively(st);
    FlushCompletes(cfg, sym, Lively(st), out, InTime(cfg, sym, ts));
  }

  /** With a positive window being in time is no more than being inside it. */
  lemma {:induction false} WindowAccepts(cfg: Config, sym: string, ts: seq<Tick>)
    requires cfg.interval > 0 && cfg.window > 0
    ensures InTime(cfg, sym, ts) == Accepted(cfg, ts)
    decreases |ts|
  {
    if ts != [] {
      var before, t := Init(ts), Last(ts);
      WindowAccepts(cfg, sym, before);
      AcceptedIsFresh(cfg, sym, before, t);
      assert before + [t] == ts;
      LastEmitted(cfg, sym, before);
      hide Accepted, BucketStart, IsLate, RunTicks;
      var (st, out) := RunTicks(cfg, sym, before);
      assert st.hasEmitted ==> Last(out) in out;
    }
  }

  lemma LastEmitted(cfg: Config, sym: string, ts: seq<Tick>)
    requires cfg.interval > 0
    ensures var (st, out) := RunTicks(cfg, sym, ts);
            st.hasEmitted == (out != []) && (out != [] ==> st.last == Last(out).start)
  {
    RunInOrder(cfg, sym, ts);
    hide Rising, Keyed;
  }

  // ---- without a window ----------------------------------------------------------------------------

  lemma NothingReady(cfg: Config, sym: string, ts: seq<Tick>)
    requires cfg.interval > 0
    ensures var st := RunTicks(cfg, sym, ts).0; Ready(st, st.latest - cfg.window) == {}
  {
    if ts != [] {
      var st := Taken(cfg, sym, RunTicks(cfg, sym, Init(ts)).0, Last(ts));
      EmitsAllReady(st, st.latest - cfg.window);
      hide Taken, Ready, Emitted;
    }
  }

  lemma EmitsAllReady(st: SymState, watermark: int)
    ensures Ready(Emitted(st, Ready(st, watermark)).0, watermark) == {}
    ensures Emitted(st, Ready(st, watermark)).0.latest == st.latest
  {
    hide Sorted, BarsAt;
    var ks := Ready(st, watermark);
    if ks != {} {
      assert Greatest(ks) in ks;
    }
  }

  /** Without a window a trade for an emitted bucket is older than the newest one and offers nothing new. */
  lemma PassedChangesNothing(cfg: Config, sym: string, ts: seq<Tick>, t: Tick)
    requires cfg.interval > 0 && cfg.window == 0 && Passed(cfg, RunTicks(cfg, sym, ts).0, t)
    ensures var (st, out) := RunTicks(cfg, sym, ts);
            && !IsLate(cfg, st, t)
            && RunTicks(cfg, sym, ts + [t]).1 == out && Lively(RunTicks(cfg, sym, ts + [t]).0) == Lively(st)
  {
    hide *;
    var st := RunTicks(cfg, sym, ts).0;
    NotNewer(cfg, sym, ts, t);
    NothingReady(cfg, sym, ts);
    OneMoreTick(cfg, sym, ts, t);
    PassedTaken(cfg, sym, st, t);
    OfferReleases(cfg, sym, st, t);
    ReleasedLively(cfg, Taken(cfg, sym, st, t));
    ReleasedLively(cfg, st);
    NoneReleased(cfg, st);
    assert RunTicks(cfg, sym, ts).1 + [] == RunTicks(cfg, sym, ts).1;
  }

  lemma PassedTaken(cfg: Config, sym: string, st: SymState, t: Tick)
    requires cfg.interval > 0 && cfg.window == 0 && Passed(cfg, st, t) && t.ts < st.latest
    ensures !IsLate(cfg, st, t) && Lively(Taken(cfg, sym, st, t)) == Lively(st)
  {
    LivelyTaken(cfg, sym, st, t);
    assert Latest(st, t) == st.latest && Lively(st).latest == st.latest;
    hide Taken, Lively, Passed;
  }

  lemma NoneReleased(cfg: Config, st: SymState)
    requires Ready(st, st.latest - cfg.window) == {}
    ensures Released(cfg, st) == (st, [])
  {
    hide Ready;
  }

  lemma NotNewer(cfg: Config, sym: string, ts: seq<Tick>, t: Tick)
    requires cfg.interval > 0 && cfg.window == 0 && Passed(cfg, RunTicks(cfg, sym, ts).0, t)
    ensures t.ts < RunTicks(cfg, sym, ts).0.latest
  {
    RunKeepsInTime(cfg, sym, ts);
    var (st, out) := RunTicks(cfg, sym, ts);
    InvParts(cfg, sym, Lively(st), out, InTime(cfg, sym, ts));
    assert Lively(st).latest == st.latest && Lively(st).last == st.last && Lively(st).hasEmitted == st.hasEmitted;
    hide Inv, InvPending, Direct, Rising, RunTicks, InTime, Lively;
    BucketBounds(t.ts, cfg.interval, cfg.offset);
    hide BucketStart;
  }

  lemma {:induction false} SameFuture(cfg: Config, sym: string, a: seq<Tick>, b: seq<Tick>, rest: seq<Tick>)
    requires cfg.interval > 0
    requires RunTicks(cfg, sym, a).1 == RunTicks(cfg, sym, b).1
    requires Lively(RunTicks(cfg, sym, a).0) == Lively(RunTicks(cfg, sym, b).0)
    ensures RunTicks(cfg, sym, a + rest).1 == RunTicks(cfg, sym, b + rest).1
    ensures Lively(RunTicks(cfg, sym, a + rest).0) == Lively(RunTicks(cfg, sym, b + rest).0)
    decreases |rest|
  {
    hide RunTicks, Lively, Offered;
    if rest == [] {
      assert a + rest == a && b + rest == b;
    } else {
      var before, t := Init(rest), Last(rest);
      SameFuture(cfg, sym, a, b, before);
      assert a + rest == a + before + [t] && b + rest == b + before + [t];
      OneMoreTick(cfg, sym, a + before, t);
      OneMoreTick(cfg, sym, b + before, t);
      SameOffer(cfg, sym, RunTicks(cfg, sym, a + before).0, RunTicks(cfg, sym, b + before).0, t);
    }
  }

  /** Without a window no trade is late; but one for a bucket already emitted, though accepted, is lost:
      whatever follows, every bar ever emitted is what it would be had the trade not come. */
  lemma WithoutWindowLost(cfg: Config, sym: string, ts: seq<Tick>, t: Tick, rest: seq<Tick>)
    requires cfg.interval > 0 && cfg.window == 0 && Passed(cfg, RunTicks(cfg, sym, ts).0, t)
    ensures Accepted(cfg, ts + [t]) == Accepted(cfg, ts) + [t]
    ensures Closed(cfg, sym, ts + [t] + rest) == Closed(cfg, sym, ts + rest)
  {
    assert Init(ts + [t]) == ts;
    PassedChangesNothing(cfg, sym, ts, t);
    SameFuture(cfg, sym, ts + [t], ts, rest);
    SameFlush(RunTicks(cfg, sym, ts + [t] + rest).0, RunTicks(cfg, sym, ts + rest).0);
    hide RunTicks, Flushed, Lively, IsLate, Passed;
  }
}
