/** When bars come out, and framed as what, while trades still arrive (internal/quotes/kline/agg.go). */
module Emission {
  import opened Basics
  import opened Bytes
  import opened Candles
  import opened Watermark
  import opened AnyWindow
  import opened Rollup
  import Summaries
  import Carrying

  // ---- the trade aggregator ------------------------------------------------------------------------

  /** Some trade falls into the bucket. */
  ghost predicate Traded(cfg: Config, ts: seq<Tick>, b: int)
    requires cfg.interval > 0
  {
    exists t :: t in ts && BucketStart(t.ts, cfg.interval, cfg.offset) == b
  }

  ghost predicate HasStart(bars: seq<Bar>, b: int) {
    exists e :: e in bars && e.start == b
  }

  /** Whatever can still be emitted ends later than the newest trade less the window. */
  lemma NothingDue(cfg: Config, sym: string, ts: seq<Tick>)
    requires cfg.interval > 0
    ensures var st := RunTicks(cfg, sym, ts).0;
            forall s :: s in st.bars && !(st.hasEmitted && s <= st.last) ==> st.bars[s].end > LatestOf(ts) - cfg.window
  {
    NothingReady(cfg, sym, ts);
    LatestTracks(cfg, sym, ts);
    var st := RunTicks(cfg, sym, ts).0;
    hide RunTicks, LatestOf;
    NoneReady(st, st.latest - cfg.window);
  }

  lemma NoneReady(st: SymState, watermark: int)
    ensures Ready(st, watermark) == {} ==>
              forall s :: s in st.bars && !(st.hasEmitted && s <= st.last) ==> st.bars[s].end > watermark
  {
    var due := set s | s in st.bars && !(st.hasEmitted && s <= st.last) && st.bars[s].end <= watermark;
    assert due <= Ready(st, watermark);
    if due == {} {
      assert forall s :: s in st.bars && !(st.hasEmitted && s <= st.last) ==> st.bars[s].end > watermark || s in due;
    }
  }

  /** Bars are emitted no earlier and no later than they are safe: after any trades, for every window, out are
      exactly the buckets with a trade in time that end by the newest trade less the window, each bar
      counting exactly those trades. */
  lemma EmittedWhenDue(cfg: Config, sym: string, ts: seq<Tick>, b: int)
    requires cfg.interval > 0
    ensures var out := RunTicks(cfg, sym, ts).1;
            && (HasStart(out, b) <==> b + cfg.interval <= LatestOf(ts) - cfg.window && Traded(cfg, InTime(cfg, sym, ts), b))
            && Rising(out) && Direct(cfg, sym, out, InTime(cfg, sym, ts))
  {
    var (st, out) := RunTicks(cfg, sym, ts);
    var mine := InTime(cfg, sym, ts);
    RunKeepsInTime(cfg, sym, ts);
    LatestTracks(cfg, sym, ts);
    NothingDue(cfg, sym, ts);
    InvParts(cfg, sym, Lively(st), out, mine);
    hide RunTicks, InTime, LatestOf, Inv, BucketStart, Rising;
    if HasStart(out, b) {
      EmittedIsDue(cfg, sym, Lively(st), out, mine, b);
    }
    KeptIsTraded(cfg, sym, Lively(st), mine, b);
    if Traded(cfg, mine, b) {
      var t :| t in mine && BucketStart(t.ts, cfg.interval, cfg.offset) == b;
      assert Placed(cfg, Lively(st), out, b);
    }
  }

  lemma EmittedIsDue(cfg: Config, sym: string, st: SymState, out: seq<Bar>, ts: seq<Tick>, b: int)
    requires cfg.interval > 0 && InvOut(cfg, sym, st, out, ts) && HasStart(out, b)
    ensures b + cfg.interval <= st.latest - cfg.window && Traded(cfg, ts, b)
  {
    hide BucketStart, Rising, Fold;
    var i :| 0 <= i < |out| && out[i].start == b;
    var own := Select(ts, cfg.interval, cfg.offset, b);
    SelectMembers(ts, cfg.interval, cfg.offset, b);
    assert own != [] && own[0] in own;
    hide Select;
  }

  /** With a positive window, in terms of the accepted trades; and nothing that is kept is due. */
  lemma WindowEmitsWhenDue(cfg: Config, sym: string, ts: seq<Tick>)
    requires cfg.interval > 0 && cfg.window > 0
    ensures var (st, out) := RunTicks(cfg, sym, ts); var due := LatestOf(ts) - cfg.window;
            && (forall b :: HasStart(out, b) <==> b + cfg.interval <= due && Traded(cfg, Accepted(cfg, ts), b))
            && (forall b :: b in st.bars <==> b + cfg.interval > due && Traded(cfg, Accepted(cfg, ts), b))
            && (forall b :: b in st.bars ==> st.bars[b] == DirectBar(cfg, sym, Accepted(cfg, ts), b))
  {
    var (st, out) := RunTicks(cfg, sym, ts);
    WindowAccepts(cfg, sym, ts);
    RunKeeps(cfg, sym, ts);
    InvParts(cfg, sym, st, out, Accepted(cfg, ts));
    AllPending(cfg, sym, st, Accepted(cfg, ts));
    NothingDue(cfg, sym, ts);
    hide RunTicks, Accepted, LatestOf, Inv, InvOut, Direct, Rising, BucketStart;
    forall b
      ensures HasStart(out, b) <==> b + cfg.interval <= LatestOf(ts) - cfg.window && Traded(cfg, Accepted(cfg, ts), b)
      ensures b in st.bars <==> b + cfg.interval > LatestOf(ts) - cfg.window && Traded(cfg, Accepted(cfg, ts), b)
    {
      EmittedWhenDue(cfg, sym, ts, b);
      KeptIsTraded(cfg, sym, st, Accepted(cfg, ts), b);
      if Traded(cfg, Accepted(cfg, ts), b) {
        var t :| t in Accepted(cfg, ts) && BucketStart(t.ts, cfg.interval, cfg.offset) == b;
        assert Placed(cfg, st, out, b);
      }
    }
  }

  lemma KeptIsTraded(cfg: Config, sym: string, st: SymState, ts: seq<Tick>, b: int)
    requires cfg.interval > 0 && InvPending(cfg, sym, st, ts)
    ensures b in st.bars ==> st.bars[b].end == b + cfg.interval && Traded(cfg, ts, b)
  {
    hide BucketStart, Fold;
    SelectMembers(ts, cfg.interval, cfg.offset, b);
    var own := Select(ts, cfg.interval, cfg.offset, b);
    assert own != [] ==> own[0] in own;
    hide Select;
  }

  /** A flush leaves nothing behind and remembers the last start, so that nothing before it can come again. */
  lemma FlushCloses(cfg: Config, sym: string, ts: seq<Tick>)
    requires cfg.interval > 0
    ensures var st := Flushed(RunTicks(cfg, sym, ts).0).0; var all := Closed(cfg, sym, ts);
            && st.bars == map[] && st.latest == LatestOf(ts)
            && st.hasEmitted == (all != []) && (all != [] ==> st.last == Last(all).start)
  {
    RunInOrder(cfg, sym, ts);
    LatestTracks(cfg, sym, ts);
    var (st, out) := RunTicks(cfg, sym, ts);
    var ks := set s | s in st.bars && Pending(st, s);
    EmitInOrder(st, out, ks);
    if ks == {} {
      assert Sorted(ks) == [];
    }
    assert Flushed(st).1 == Emitted(st, ks).1;
    hide RunTicks, Sorted, BarsAt, Greatest, LatestOf;
  }

  // ---- a rollup ------------------------------------------------------------------------------------

  /** Number of bars whose start falls into the bucket. */
  ghost function Falling(cfg: RollConfig, children: seq<Bar>, b: int): nat
    requires cfg.interval > 0
    decreases |children|
  {
    if children == [] then 0
    else
      Falling(cfg, Init(children), b) + (if BucketStart(Last(children).start, cfg.interval, cfg.offset) == b then 1 else 0)
  }

  /** A bar of the symbol, one interval long, counting the children of its bucket. */
  ghost predicate Framed(cfg: RollConfig, sym: string, bar: Bar, children: seq<Bar>)
    requires cfg.interval > 0
  {
    bar.symbol == sym && bar.end == bar.start + cfg.interval && bar.count == Falling(cfg, children, bar.start)
  }

  ghost predicate AllFramed(cfg: RollConfig, sym: string, bars: seq<Bar>, children: seq<Bar>)
    requires cfg.interval > 0
  {
    forall bar :: bar in bars ==> Framed(cfg, sym, bar, children)
  }

  ghost predicate Below(bars: seq<Bar>, b: int) {
    forall bar :: bar in bars ==> bar.start < b
  }

  /** Every child's bucket is out, or the one under way. */
  ghost predicate AllOut(cfg: RollConfig, bars: seq<Bar>, last: int, children: seq<Bar>)
    requires cfg.interval > 0
  {
    forall b :: Falling(cfg, children, b) > 0 ==> b == last || HasStart(bars, b)
  }

  lemma {:induction false} FallingBelow(cfg: RollConfig, children: seq<Bar>, b: int)
    requires cfg.interval > 0 && Rising(children) && children != []
    requires b > BucketStart(Last(children).start, cfg.interval, cfg.offset)
    ensures Falling(cfg, children, b) == 0
    decreases |children|
  {
    if |children| > 1 {
      BucketMonotone(Last(Init(children)).start, Last(children).start, cfg.interval, cfg.offset);
      FallingBelow(cfg, Init(children), b);
    } else {
      assert Init(children) == [];
    }
    hide BucketStart;
  }

  lemma {:induction false} FillersFramed(cfg: RollConfig, sym: string, close: i64, next: int, bs: int, children: seq<Bar>)
    requires cfg.interval > 0 && forall b :: next <= b < bs ==> Falling(cfg, children, b) == 0
    ensures var fs := Fillers(cfg, sym, close, next, bs); AllFramed(cfg, sym, fs, children) && Below(fs, bs)
    decreases bs - next
  {
    if next < bs {
      FillersFramed(cfg, sym, close, next + cfg.interval, bs, children);
      hide Falling, Flat;
    }
  }

  ghost predicate Rolling(cfg: RollConfig, sym: string, cur: Option<Bar>, out: seq<Bar>, children: seq<Bar>)
    requires cfg.interval > 0 && children != []
  {
    && cur.Some? && cur.value.start == BucketStart(Last(children).start, cfg.interval, cfg.offset)
    && Framed(cfg, sym, cur.value, children) && AllFramed(cfg, sym, out, children)
    && Below(out, cur.value.start) && AllOut(cfg, out, cur.value.start, children)
  }

  lemma OneMoreFalls(cfg: RollConfig, children: seq<Bar>)
    requires cfg.interval > 0 && children != []
    ensures var bs := BucketStart(Last(children).start, cfg.interval, cfg.offset);
            forall b :: Falling(cfg, children, b) == Falling(cfg, Init(children), b) + (if b == bs then 1 else 0)
  {
    hide BucketStart;
  }

  /** A child of a later bucket: the current bar goes out, with fillers behind it. */
  lemma RollsOn(cfg: RollConfig, sym: string, cb: Bar, out: seq<Bar>, children: seq<Bar>, fs: seq<Bar>, cb': Bar)
    requires cfg.interval > 0 && |children| > 1 && Rising(children)
    requires Rolling(cfg, sym, Some(cb), out, Init(children))
    requires var bs := BucketStart(Last(children).start, cfg.interval, cfg.offset);
             && bs > cb.start && AllFramed(cfg, sym, fs, Init(children)) && Below(fs, bs)
             && cb'.symbol == sym && cb'.start == bs && cb'.end == bs + cfg.interval && cb'.count == 1
    ensures Rolling(cfg, sym, Some(cb'), out + ([cb] + fs), children)
  {
    OneMoreFalls(cfg, children);
    FallingBelow(cfg, Init(children), cb'.start);
    hide BucketStart, Falling, Rising;
    var all := out + ([cb] + fs);
    forall b | Falling(cfg, children, b) > 0
      ensures b == cb'.start || HasStart(all, b)
    {
      if b != cb'.start {
        if b == cb.start {
          assert cb in all;
        } else {
          var e :| e in out && e.start == b;
          assert e in all;
        }
      }
    }
  }

  /** A child of the same bucket. */
  lemma RollsIn(cfg: RollConfig, sym: string, cb: Bar, out: seq<Bar>, children: seq<Bar>, cb': Bar)
    requires cfg.interval > 0 && |children| > 1 && Rolling(cfg, sym, Some(cb), out, Init(children))
    requires BucketStart(Last(children).start, cfg.interval, cfg.offset) == cb.start
    requires cb'.symbol == cb.symbol && cb'.start == cb.start && cb'.end == cb.end && cb'.count == cb.count + 1
    ensures Rolling(cfg, sym, Some(cb'), out, children)
  {
    OneMoreFalls(cfg, children);
    hide BucketStart, Falling;
  }

  lemma FirstRolls(cfg: RollConfig, sym: string, children: seq<Bar>)
    requires cfg.interval > 0 && |children| == 1 && children[0].symbol == sym
    ensures Rolling(cfg, sym, RollRun(cfg, children).0, RollRun(cfg, children).1, children)
  {
    assert Init(children) == [];
    Carrying.RunLast(cfg, children);
    Carrying.RunNothing(cfg);
    Summaries.FirstBar(cfg, Last(children));
    var bs := BucketStart(Last(children).start, cfg.interval, cfg.offset);
    hide BucketStart, RollRun, RollOffer;
    var out: seq<Bar> := RollRun(cfg, Init(children)).1;
    assert out + RollOffer(cfg, None, Last(children)).1 == [];
    assert RollRun(cfg, children) == (Some(Opened(cfg, Last(children), bs)), []);
    OneMoreFalls(cfg, children);
    assert forall b :: Falling(cfg, Init(children), b) == 0;
  }

  lemma {:induction false} RollRolls(cfg: RollConfig, children: seq<Bar>, sym: string)
    requires cfg.interval > 0 && children != [] && Rising(children)
    requires forall child :: child in children ==> child.symbol == sym
    ensures Rolling(cfg, sym, RollRun(cfg, children).0, RollRun(cfg, children).1, children)
    decreases |children|
  {
    if |children| == 1 {
      FirstRolls(cfg, sym, children);
    } else {
      var before, child := Init(children), Last(children);
      RollRolls(cfg, before, sym);
      var (cur, out) := RollRun(cfg, before);
      RollStep(cfg, sym, cur.value, out, children);
    }
  }

  lemma RollStep(cfg: RollConfig, sym: string, cb: Bar, out: seq<Bar>, children: seq<Bar>)
    requires cfg.interval > 0 && |children| > 1 && Rising(children) && Last(children).symbol == sym
    requires Rolling(cfg, sym, Some(cb), out, Init(children))
    ensures var (cur', es) := RollOffer(cfg, Some(cb), Last(children)); Rolling(cfg, sym, cur', out + es, children)
  {
    hide BucketStart, Rolling, Fillers, Falling;
    var before, child := Init(children), Last(children);
    var bs := BucketStart(child.start, cfg.interval, cfg.offset);
    SameStart(cfg, sym, cb, out, before);
    BucketMonotone(Last(before).start, child.start, cfg.interval, cfg.offset);
    if bs > cb.start {
      forall b | cb.start < b < bs
        ensures Falling(cfg, before, b) == 0
      {
        FallingBelow(cfg, before, b);
      }
      FillersFramed(cfg, sym, cb.candle.close, cb.start + cfg.interval, bs, before);
      var fs := if cfg.fill then Fillers(cfg, sym, cb.candle.close, cb.start + cfg.interval, bs) else [];
      RollsOn(cfg, sym, cb, out, children, fs, Opened(cfg, child, bs));
    } else {
      RollsIn(cfg, sym, cb, out, children, cb.(candle := Join(cb.candle, child.candle), count := cb.count + 1));
      assert out + [] == out;
    }
  }

  lemma SameStart(cfg: RollConfig, sym: string, cb: Bar, out: seq<Bar>, children: seq<Bar>)
    requires cfg.interval > 0 && children != [] && Rolling(cfg, sym, Some(cb), out, children)
    ensures cb.start == BucketStart(Last(children).start, cfg.interval, cfg.offset)
  {
  }

  /** Fed the rising bars of one symbol, a rollup has sent out, at any moment, exactly the buckets before the one
      of the newest child, and fillers; every bar bears the symbol, lasts one interval and counts the
      children of its bucket. */
  lemma RolledWhenPassed(cfg: RollConfig, children: seq<Bar>, sym: string, b: int)
    requires cfg.interval > 0 && children != [] && Rising(children)
    requires forall child :: child in children ==> child.symbol == sym
    ensures var (cur, out) := RollRun(cfg, children); var now := BucketStart(Last(children).start, cfg.interval, cfg.offset);
            && cur.Some? && cur.value.start == now
            && AllFramed(cfg, sym, out + [cur.value], children)
            && ((exists e :: e in out && e.start == b && e.count > 0) <==> b < now && Falling(cfg, children, b) > 0)
  {
    RollRolls(cfg, children, sym);
    hide RollRun, BucketStart, Falling;
    if b > BucketStart(Last(children).start, cfg.interval, cfg.offset) {
      FallingBelow(cfg, children, b);
    }
  }

  /** The greatest bucket so far, or nothing. */
  ghost function Front(cfg: RollConfig, children: seq<Bar>): Option<int>
    requires cfg.interval > 0
    decreases |children|
  {
    if children == [] then None
    else
      var b := BucketStart(Last(children).start, cfg.interval, cfg.offset);
      match Front(cfg, Init(children))
      case None => Some(b)
      case Some(x) => Some(Max(x, b))
  }

  /** The bars that do not fall behind a bucket already begun. */
  ghost function InStep(cfg: RollConfig, children: seq<Bar>): seq<Bar>
    requires cfg.interval > 0
    decreases |children|
  {
    if children == [] then []
    else
      var front := Front(cfg, Init(children));
      InStep(cfg, Init(children)) +
      (if front.Some? && BucketStart(Last(children).start, cfg.interval, cfg.offset) < front.value then []
       else [Last(children)])
  }

  /** Fed bars in any order, a rollup does as if the ones that fall behind had not come. */
  lemma {:induction false} RollIgnoresOld(cfg: RollConfig, children: seq<Bar>)
    requires cfg.interval > 0
    ensures RollRun(cfg, children) == RollRun(cfg, InStep(cfg, children))
    ensures var cur := RollRun(cfg, children).0;
            Front(cfg, children) == if cur.Some? then Some(cur.value.start) else None
    decreases |children|
  {
    if children != [] {
      RollIgnoresOld(cfg, Init(children));
      Carrying.RunLast(cfg, children);
      var kept := InStep(cfg, Init(children));
      assert Init(kept + [Last(children)]) == kept;
      Carrying.RunLast(cfg, kept + [Last(children)]);
      hide BucketStart, RollRun, Fillers, Join;
      assert RollRun(cfg, Init(children)).1 + [] == RollRun(cfg, Init(children)).1;
      assert kept + [] == kept;
    }
  }
}
