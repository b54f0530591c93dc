/** The trade aggregator of one symbol on values, and what its reorder window guarantees
    (internal/quotes/kline/agg.go, TradeAgg). */
module Watermark {
  import opened Basics
  import opened Bytes
  import opened Candles

  datatype Bar = Bar(symbol: string, start: int, end: int, candle: Candle, count: nat)

  datatype Config = Config(interval: int, offset: int, window: int)

  datatype SymState = SymState(latest: int, bars: map<int, Bar>, last: int, hasEmitted: bool)

  const FRESH := SymState(0, map[], 0, false)

  // ---- one trade -----------------------------------------------------------------------------

  function Latest(st: SymState, t: Tick): int {
    if t.ts > st.latest then t.ts else st.latest
  }

  predicate IsLate(cfg: Config, st: SymState, t: Tick) {
    cfg.window > 0 && t.ts < Latest(st, t) - cfg.window
  }

  function Counted(cfg: Config, sym: string, bars: map<int, Bar>, t: Tick): map<int, Bar>
    requires cfg.interval > 0
  {
    var bs := BucketStart(t.ts, cfg.interval, cfg.offset);
    if bs in bars then bars[bs := bars[bs].(candle := Join(bars[bs].candle, OfTick(t)), count := bars[bs].count + 1)]
    else bars[bs := Bar(sym, bs, bs + cfg.interval, OfTick(t), 1)]
  }

  /** A bar that emission may still consider. */
  predicate Pending(st: SymState, start: int) {
    start in st.bars && !(st.hasEmitted && start <= st.last)
  }

  function Ready(st: SymState, watermark: int): set<int> {
    set s | s in st.bars && Pending(st, s) && st.bars[s].end <= watermark
  }

  predicate Increasing(ks: seq<int>) {
    forall i, j :: 0 <= i < j < |ks| ==> ks[i] < ks[j]
  }

  ghost function Greatest(ps: set<int>): (m: int)
    requires ps != {}
    ensures m in ps && forall x :: x in ps ==> x <= m
  {
    var x := Pick(ps);
    if ps == {x} then x
    else
      var y := Greatest(ps - {x});
      assert ps == (ps - {x}) + {x};
      Max(x, y)
  }

  /** The elements of a set in increasing order. */
  ghost function Sorted(ps: set<int>): (ks: seq<int>)
    ensures Increasing(ks) && forall x :: x in ks <==> x in ps
  {
    if ps == {} then [] else Sorted(ps - {Greatest(ps)}) + [Greatest(ps)]
  }

  /** Only one sequence is increasing with given elements. */
  lemma {:induction false} SortedUnique(ks: seq<int>, ps: set<int>)
    requires Increasing(ks) && forall x :: x in ks <==> x in ps
    ensures ks == Sorted(ps)
    decreases |ks|
  {
    if ks == [] {
      assert forall x :: x in ps ==> x in ks;
      assert ps == {};
    } else {
      var m := Last(ks);
      LastIsGreatest(ks, ps);
      SortedUnique(Init(ks), ps - {m});
      assert ks == Init(ks) + [m];
    }
  }

  lemma LastIsGreatest(ks: seq<int>, ps: set<int>)
    requires ks != [] && Increasing(ks) && forall x :: x in ks <==> x in ps
    ensures ps != {} && Last(ks) in ps && Greatest(ps) == Last(ks)
    ensures Increasing(Init(ks)) && forall x :: x in Init(ks) <==> x in ps - {Last(ks)}
  {
    assert Last(ks) in ks;
    assert ks == Init(ks) + [Last(ks)];
    assert forall x :: x in ps ==> x in ks && x <= Last(ks);
  }

  function BarsAt(bars: map<int, Bar>, ks: seq<int>): (r: seq<Bar>)
    requires forall i :: 0 <= i < |ks| ==> ks[i] in bars
    ensures |r| == |ks| && forall i :: 0 <= i < |ks| ==> r[i] == bars[ks[i]]
  {
    seq(|ks|, i requires 0 <= i < |ks| => bars[ks[i]])
  }

  ghost function Emitted(st: SymState, ks: set<int>): (SymState, seq<Bar>)
    requires ks <= st.bars.Keys
  {
    if ks == {} then (st, [])
    else (SymState(st.latest, st.bars - ks, Greatest(ks), true), BarsAt(st.bars, Sorted(ks)))
  }

  /** The state before anything is emitted: the watermark has moved, the trade is counted unless late. */
  function Taken(cfg: Config, sym: string, st: SymState, t: Tick): SymState
    requires cfg.interval > 0
  {
    var st1 := st.(latest := Latest(st, t));
    if IsLate(cfg, st, t) then st1 else st1.(bars := Counted(cfg, sym, st.bars, t))
  }

  ghost function Offered(cfg: Config, sym: string, st: SymState, t: Tick): (SymState, seq<Bar>)
    requires cfg.interval > 0
  {
    var st' := Taken(cfg, sym, st, t);
    Emitted(st', Ready(st', st'.latest - cfg.window))
  }

  /** Flush writes out every bar still considered and drops the others. */
  ghost function Flushed(st: SymState): (SymState, seq<Bar>) {
    var ks := set s | s in st.bars && Pending(st, s);
    (Emitted(st, ks).0.(bars := map[]), BarsAt(st.bars, Sorted(ks)))
  }

  // ---- a run -----------------------------------------------------------------------------------

  ghost function RunTicks(cfg: Config, sym: string, ts: seq<Tick>): (SymState, seq<Bar>)
    requires cfg.interval > 0
    decreases |ts|
  {
    if ts == [] then (FRESH, [])
    else
      var (st, out) := RunTicks(cfg, sym, Init(ts));
      var (st', es) := Offered(cfg, sym, st, Last(ts));
      (st', out + es)
  }

  /** Everything emitted by a run and the flush that ends it. */
  ghost function Closed(cfg: Config, sym: string, ts: seq<Tick>): seq<Bar>
    requires cfg.interval > 0
  {
    RunTicks(cfg, sym, ts).1 + Flushed(RunTicks(cfg, sym, ts).0).1
  }

  ghost function LatestOf(ts: seq<Tick>): int
    decreases |ts|
  {
    if ts == [] then 0 else Max(LatestOf(Init(ts)), Last(ts).ts)
  }

  /** The trades the window lets in: not older than the newest time so far less the window. */
  ghost function Accepted(cfg: Config, ts: seq<Tick>): seq<Tick>
    decreases |ts|
  {
    if ts == [] then []
    else if cfg.window > 0 && Last(ts).ts < LatestOf(ts) - cfg.window then Accepted(cfg, Init(ts))
    else Accepted(cfg, Init(ts)) + [Last(ts)]
  }

  /** The bar of one bucket, directly from the trades. */
  function DirectBar(cfg: Config, sym: string, ts: seq<Tick>, start: int): Bar
    requires cfg.interval > 0
  {
    var own := Select(ts, cfg.interval, cfg.offset, start);
    Bar(sym, start, start + cfg.interval, Fold(own), |own|)
  }

  ghost predicate Rising(bars: seq<Bar>) {
    forall i, j :: 0 <= i < j < |bars| ==> bars[i].start < bars[j].start
  }

  ghost predicate Direct(cfg: Config, sym: string, bars: seq<Bar>, ts: seq<Tick>)
    requires cfg.interval > 0
  {
    forall i :: 0 <= i < |bars| ==>
      bars[i] == DirectBar(cfg, sym, ts, bars[i].start) && Select(ts, cfg.interval, cfg.offset, bars[i].start) != []
  }

  /** Bars of increasing start, each the direct bar of its bucket, one for every bucket with a trade. */
  ghost predicate Exact(cfg: Config, sym: string, bars: seq<Bar>, ts: seq<Tick>)
    requires cfg.interval > 0
  {
    && Rising(bars) && Direct(cfg, sym, bars, ts)
    && (forall t :: t in ts ==> exists i :: 0 <= i < |bars| && bars[i].start == BucketStart(t.ts, cfg.interval, cfg.offset))
  }

  // ---- what every step keeps ------------------------------------------------------------------

  /** Bars are either emitted, with ends up to the watermark, or pending with ends above it;
      together they are exact. */
  ghost predicate Inv(cfg: Config, sym: string, st: SymState, out: seq<Bar>, ts: seq<Tick>)
    requires cfg.interval > 0
  {
    && InvPending(cfg, sym, st, ts)
    && InvOut(cfg, sym, st, out, ts)
    && (forall t :: t in ts ==> Placed(cfg, st, out, BucketStart(t.ts, cfg.interval, cfg.offset)))
  }

  ghost predicate InvPending(cfg: Config, sym: string, st: SymState, ts: seq<Tick>)
    requires cfg.interval > 0
  {
    forall s :: s in st.bars ==>
      && st.bars[s] == DirectBar(cfg, sym, ts, s) && Select(ts, cfg.interval, cfg.offset, s) != []
      && (st.hasEmitted ==> s > st.last)
  }

  ghost predicate InvOut(cfg: Config, sym: string, st: SymState, out: seq<Bar>, ts: seq<Tick>)
    requires cfg.interval > 0
  {
    && Rising(out) && Direct(cfg, sym, out, ts)
    && EndBy(cfg, out, st.latest - cfg.window)
    && st.hasEmitted == (out != []) && (out != [] ==> st.last == Last(out).start)
  }

  ghost predicate EndBy(cfg: Config, bars: seq<Bar>, watermark: int) {
    forall i :: 0 <= i < |bars| ==> bars[i].start + cfg.interval <= watermark
  }

  ghost predicate Placed(cfg: Config, st: SymState, out: seq<Bar>, b: int) {
    b in st.bars || exists i :: 0 <= i < |out| && out[i].start == b
  }

  lemma DirectElsewhere(cfg: Config, sym: string, ts: seq<Tick>, t: Tick, s: int)
    requires cfg.interval > 0
    ensures var b := BucketStart(t.ts, cfg.interval, cfg.offset);
            && (s != b ==> Select(ts + [t], cfg.interval, cfg.offset, s) == Select(ts, cfg.interval, cfg.offset, s)
                           && DirectBar(cfg, sym, ts + [t], s) == DirectBar(cfg, sym, ts, s))
            && (s == b ==> Select(ts + [t], cfg.interval, cfg.offset, s) == Select(ts, cfg.interval, cfg.offset, s) + [t])
  {
    assert (ts + [t])[..|ts + [t]| - 1] == ts;
    hide BucketStart, Fold;
  }

  lemma DirectHere(cfg: Config, sym: string, ts: seq<Tick>, t: Tick)
    requires cfg.interval > 0
    ensures var b := BucketStart(t.ts, cfg.interval, cfg.offset);
            var own := Select(ts, cfg.interval, cfg.offset, b);
            DirectBar(cfg, sym, ts + [t], b) ==
            if own == [] then Bar(sym, b, b + cfg.interval, OfTick(t), 1)
            else DirectBar(cfg, sym, ts, b).(candle := Join(Fold(own), OfTick(t)), count := |own| + 1)
  {
    var b := BucketStart(t.ts, cfg.interval, cfg.offset);
    var own := Select(ts, cfg.interval, cfg.offset, b);
    DirectElsewhere(cfg, sym, ts, t, b);
    assert (own + [t])[..|own + [t]| - 1] == own;
    hide BucketStart;
  }

  /** A trade that is not late falls into no emitted bucket: its bucket's end lies above the watermark. */
  lemma AboveEmitted(cfg: Config, sym: string, st: SymState, out: seq<Bar>, ts: seq<Tick>, t: Tick)
    requires cfg.interval > 0 && cfg.window > 0 && InvOut(cfg, sym, st, out, ts) && !IsLate(cfg, st, t)
    ensures var b := BucketStart(t.ts, cfg.interval, cfg.offset);
            && (forall i :: 0 <= i < |out| ==> out[i].start < b)
            && (st.hasEmitted ==> b > st.last)
  {
    BucketBounds(t.ts, cfg.interval, cfg.offset);
    hide BucketStart, DirectBar, Select;
  }

  lemma CountKeeps(cfg: Config, sym: string, st: SymState, out: seq<Bar>, ts: seq<Tick>, t: Tick)
    requires cfg.interval > 0 && Inv(cfg, sym, st, out, ts)
    requires forall e :: e in out ==> e.start < BucketStart(t.ts, cfg.interval, cfg.offset)
    requires st.hasEmitted ==> BucketStart(t.ts, cfg.interval, cfg.offset) > st.last
    ensures Inv(cfg, sym, st.(latest := Latest(st, t), bars := Counted(cfg, sym, st.bars, t)), out, ts + [t])
  {
    hide BucketStart, InvPending, InvOut, Counted, Select, Placed, IsLate;
    Unplaced(cfg, st, out, ts, BucketStart(t.ts, cfg.interval, cfg.offset));
    CountKeepsPending(cfg, sym, st, ts, t);
    CountKeepsOut(cfg, sym, st, out, ts, t);
    CountPlaces(cfg, sym, st, out, ts, t);
  }

  lemma Unplaced(cfg: Config, st: SymState, out: seq<Bar>, ts: seq<Tick>, b: int)
    requires cfg.interval > 0
    requires forall t :: t in ts ==> Placed(cfg, st, out, BucketStart(t.ts, cfg.interval, cfg.offset))
    requires forall i :: 0 <= i < |out| ==> out[i].start < b
    ensures b in st.bars || Select(ts, cfg.interval, cfg.offset, b) == []
  {
    hide BucketStart;
    SelectMembers(ts, cfg.interval, cfg.offset, b);
    var own := Select(ts, cfg.interval, cfg.offset, b);
    if own != [] {
      assert own[0] in own;
      assert Placed(cfg, st, out, b);
    }
  }

  lemma CountPlaces(cfg: Config, sym: string, st: SymState, out: seq<Bar>, ts: seq<Tick>, t: Tick)
    requires cfg.interval > 0
    requires forall u :: u in ts ==> Placed(cfg, st, out, BucketStart(u.ts, cfg.interval, cfg.offset))
    ensures var st' := st.(latest := Latest(st, t), bars := Counted(cfg, sym, st.bars, t));
            forall u :: u in ts + [t] ==> Placed(cfg, st', out, BucketStart(u.ts, cfg.interval, cfg.offset))
  {
    hide BucketStart;
  }

  lemma CountKeepsPending(cfg: Config, sym: string, st: SymState, ts: seq<Tick>, t: Tick)
    requires cfg.interval > 0 && InvPending(cfg, sym, st, ts)
    requires st.hasEmitted ==> BucketStart(t.ts, cfg.interval, cfg.offset) > st.last
    requires BucketStart(t.ts, cfg.interval, cfg.offset) in st.bars ||
             Select(ts, cfg.interval, cfg.offset, BucketStart(t.ts, cfg.interval, cfg.offset)) == []
    ensures InvPending(cfg, sym, st.(latest := Latest(st, t), bars := Counted(cfg, sym, st.bars, t)), ts + [t])
  {
    var st' := st.(latest := Latest(st, t), bars := Counted(cfg, sym, st.bars, t));
    DirectHere(cfg, sym, ts, t);
    var b := BucketStart(t.ts, cfg.interval, cfg.offset);
    forall s | s in st'.bars
      ensures st'.bars[s] == DirectBar(cfg, sym, ts + [t], s) && Select(ts + [t], cfg.interval, cfg.offset, s) != []
      ensures st'.hasEmitted ==> s > st'.last
    {
      DirectElsewhere(cfg, sym, ts, t, s);
      hide BucketStart, Select, Fold;
    }
  }

  lemma CountKeepsOut(cfg: Config, sym: string, st: SymState, out: seq<Bar>, ts: seq<Tick>, t: Tick)
    requires cfg.interval > 0 && InvOut(cfg, sym, st, out, ts)
    requires forall i :: 0 <= i < |out| ==> out[i].start < BucketStart(t.ts, cfg.interval, cfg.offset)
    ensures InvOut(cfg, sym, st.(latest := Latest(st, t), bars := Counted(cfg, sym, st.bars, t)), out, ts + [t])
  {
    forall i | 0 <= i < |out|
      ensures out[i] == DirectBar(cfg, sym, ts + [t], out[i].start)
      ensures Select(ts + [t], cfg.interval, cfg.offset, out[i].start) != []
    {
      DirectElsewhere(cfg, sym, ts, t, out[i].start);
    }
    hide BucketStart, DirectBar, Select, Counted;
  }

  lemma LateKeeps(cfg: Config, sym: string, st: SymState, out: seq<Bar>, ts: seq<Tick>, latest: int)
    requires cfg.interval > 0 && Inv(cfg, sym, st, out, ts) && latest >= st.latest
    ensures Inv(cfg, sym, st.(latest := latest), out, ts)
  {
    hide BucketStart, DirectBar, Select;
    assert forall b :: Placed(cfg, st, out, b) ==> Placed(cfg, st.(latest := latest), out, b);
  }

  ghost predicate Keyed(bars: map<int, Bar>) {
    forall s :: s in bars ==> bars[s].start == s
  }

  lemma AllPending(cfg: Config, sym: string, st: SymState, ts: seq<Tick>)
    requires cfg.interval > 0 && InvPending(cfg, sym, st, ts)
    ensures Keyed(st.bars) && forall s :: s in st.bars ==> Pending(st, s)
  {
  }

  ghost predicate FromPending(st: SymState, es: seq<Bar>) {
    forall i :: 0 <= i < |es| ==>
      es[i].start in st.bars && es[i] == st.bars[es[i].start] && (st.hasEmitted ==> es[i].start > st.last)
  }

  ghost predicate Covers(es: seq<Bar>, ks: set<int>) {
    && (forall i :: 0 <= i < |es| ==> es[i].start in ks)
    && (forall s :: s in ks ==> exists i :: 0 <= i < |es| && es[i].start == s)
  }

  lemma BarsInOrder(st: SymState, ks: set<int>, order: seq<int>, es: seq<Bar>)
    requires Keyed(st.bars) && ks <= st.bars.Keys && forall s :: s in ks ==> Pending(st, s)
    requires Increasing(order) && forall x :: x in order <==> x in ks
    requires |es| == |order| && forall i :: 0 <= i < |order| ==> order[i] in st.bars && es[i] == st.bars[order[i]]
    ensures Rising(es) && FromPending(st, es) && Covers(es, ks)
    ensures forall i :: 0 <= i < |es| ==> es[i].start == order[i]
  {
    forall i | 0 <= i < |es|
      ensures es[i].start == order[i] && order[i] in ks
    {
      assert order[i] in order;
    }
    forall s | s in ks
      ensures exists i :: 0 <= i < |es| && es[i].start == s
    {
      var i :| 0 <= i < |order| && order[i] == s;
      assert es[i].start == s;
    }
  }

  /** What emission hands on: increasing starts, all above what was emitted before. */
  lemma EmittedBars(st: SymState, ks: set<int>)
    requires Keyed(st.bars) && ks <= st.bars.Keys && forall s :: s in ks ==> Pending(st, s)
    ensures var es := Emitted(st, ks).1;
            && Rising(es) && FromPending(st, es) && Covers(es, ks)
            && (es == [] <==> ks == {}) && (es != [] ==> Last(es).start == Greatest(ks))
  {
    if ks != {} {
      var order, es := Sorted(ks), Emitted(st, ks).1;
      assert order != [] by {
        assert Pick(ks) in order;
      }
      LastIsGreatest(order, ks);
      hide Sorted, Emitted, Greatest;
      BarsInOrder(st, ks, order, es);
    }
  }

  /** Emitting every pending bar that ends by the watermark keeps the invariant. */
  lemma EmitKeeps(cfg: Config, sym: string, st: SymState, out: seq<Bar>, ts: seq<Tick>)
    requires cfg.interval > 0 && Inv(cfg, sym, st, out, ts)
    ensures var (st', es) := Emitted(st, Ready(st, st.latest - cfg.window));
            Inv(cfg, sym, st', out + es, ts)
  {
    var ks := Ready(st, st.latest - cfg.window);
    var (st', es) := Emitted(st, ks);
    AllPending(cfg, sym, st, ts);
    EmittedBars(st, ks);
    if ks == {} {
      assert out + es == out;
    } else {
      EmitKeepsPending(cfg, sym, st, ts, ks);
      EmitKeepsOut(cfg, sym, st, out, ts, ks);
      EmitPlaces(cfg, st, out, es, ks);
    }
  }

  lemma EmitPlaces(cfg: Config, st: SymState, out: seq<Bar>, es: seq<Bar>, ks: set<int>)
    requires ks != {} && ks <= st.bars.Keys && Covers(es, ks)
    ensures forall b :: Placed(cfg, st, out, b) ==> Placed(cfg, Emitted(st, ks).0, out + es, b)
  {
    var st' := Emitted(st, ks).0;
    assert st'.bars == st.bars - ks;
    hide Emitted;
    forall b | Placed(cfg, st, out, b)
      ensures Placed(cfg, st', out + es, b)
    {
      if b in ks {
        var i :| 0 <= i < |es| && es[i].start == b;
        assert (out + es)[|out| + i].start == b;
      } else if b !in st.bars {
        var i :| 0 <= i < |out| && out[i].start == b;
        assert (out + es)[i].start == b;
      }
    }
  }

  lemma EmitKeepsPending(cfg: Config, sym: string, st: SymState, ts: seq<Tick>, ks: set<int>)
    requires cfg.interval > 0 && InvPending(cfg, sym, st, ts)
    requires ks == Ready(st, st.latest - cfg.window) && ks != {}
    ensures InvPending(cfg, sym, Emitted(st, ks).0, ts)
  {
    hide BucketStart, Select, Fold;
  }

  lemma EmittedEndBy(cfg: Config, sym: string, st: SymState, ts: seq<Tick>, ks: set<int>)
    requires cfg.interval > 0 && InvPending(cfg, sym, st, ts)
    requires ks == Ready(st, st.latest - cfg.window) && ks != {}
    ensures var (st', es) := Emitted(st, ks);
            && st'.latest == st.latest && st'.hasEmitted && st'.last == Greatest(ks)
            && EndBy(cfg, es, st.latest - cfg.window)
  {
    AllPending(cfg, sym, st, ts);
    EmittedBars(st, ks);
    hide BucketStart, Select, Fold;
    var es := Emitted(st, ks).1;
    forall i | 0 <= i < |es|
      ensures es[i].start + cfg.interval <= st.latest - cfg.window
    {
      assert es[i].start in ks;
      assert st.bars[es[i].start] == DirectBar(cfg, sym, ts, es[i].start);
    }
  }

  lemma OutEnds(cfg: Config, sym: string, st: SymState, out: seq<Bar>, ts: seq<Tick>)
    requires cfg.interval > 0 && InvOut(cfg, sym, st, out, ts)
    ensures EndBy(cfg, out, st.latest - cfg.window)
  {
  }

  lemma OutBuilt(cfg: Config, sym: string, st: SymState, watermark: int, out: seq<Bar>, es: seq<Bar>, ts: seq<Tick>)
    requires cfg.interval > 0 && es != [] && st.hasEmitted && st.last == Last(es).start
    requires st.latest - cfg.window == watermark && EndBy(cfg, out, watermark) && EndBy(cfg, es, watermark)
    requires Rising(out + es) && Direct(cfg, sym, out + es, ts)
    ensures InvOut(cfg, sym, st, out + es, ts)
  {
    hide Rising, Direct;
  }

  lemma EmitKeepsOut(cfg: Config, sym: string, st: SymState, out: seq<Bar>, ts: seq<Tick>, ks: set<int>)
    requires cfg.interval > 0 && InvPending(cfg, sym, st, ts) && InvOut(cfg, sym, st, out, ts)
    requires ks == Ready(st, st.latest - cfg.window) && ks != {}
    ensures InvOut(cfg, sym, Emitted(st, ks).0, out + Emitted(st, ks).1, ts)
  {
    AllPending(cfg, sym, st, ts);
    EmittedBars(st, ks);
    EmittedEndBy(cfg, sym, st, ts, ks);
    hide *;
    OutEnds(cfg, sym, st, out, ts);
    var (st', es) := Emitted(st, ks);
    AllDirect(cfg, sym, st, out, es, ts);
    OutBuilt(cfg, sym, st', st.latest - cfg.window, out, es, ts);
  }

  lemma {:induction false} LatestTracks(cfg: Config, sym: string, ts: seq<Tick>)
    requires cfg.interval > 0
    ensures RunTicks(cfg, sym, ts).0.latest == LatestOf(ts)
    decreases |ts|
  {
    if ts != [] {
      LatestTracks(cfg, sym, Init(ts));
      hide Counted, Ready;
    }
  }

  lemma OfferKeeps(cfg: Config, sym: string, st: SymState, out: seq<Bar>, ts: seq<Tick>, t: Tick)
    requires cfg.interval > 0 && cfg.window > 0 && Inv(cfg, sym, st, out, ts)
    ensures var (st', es) := Offered(cfg, sym, st, t);
            Inv(cfg, sym, st', out + es, if IsLate(cfg, st, t) then ts else ts + [t])
  {
    hide Inv, InvOut, InvPending, BucketStart, Counted, Emitted, Ready;
    if IsLate(cfg, st, t) {
      LateKeeps(cfg, sym, st, out, ts, Latest(st, t));
      EmitKeeps(cfg, sym, st.(latest := Latest(st, t)), out, ts);
    } else {
      InvParts(cfg, sym, st, out, ts);
      AboveEmitted(cfg, sym, st, out, ts, t);
      CountKeeps(cfg, sym, st, out, ts, t);
      EmitKeeps(cfg, sym, st.(latest := Latest(st, t), bars := Counted(cfg, sym, st.bars, t)), out, ts + [t]);
    }
  }

  lemma {:induction false} RunKeeps(cfg: Config, sym: string, ts: seq<Tick>)
    requires cfg.interval > 0 && cfg.window > 0
    ensures Inv(cfg, sym, RunTicks(cfg, sym, ts).0, RunTicks(cfg, sym, ts).1, Accepted(cfg, ts))
    decreases |ts|
  {
    if ts != [] {
      hide Inv, Offered;
      RunKeeps(cfg, sym, Init(ts));
      LatestTracks(cfg, sym, Init(ts));
      var (st, out) := RunTicks(cfg, sym, Init(ts));
      OfferKeeps(cfg, sym, st, out, Accepted(cfg, Init(ts)), Last(ts));
    }
  }

  /** Whatever came before, a trade that is not late is accepted and falls into a bucket above everything
      emitted; a late one is dropped. */
  lemma AcceptedIsFresh(cfg: Config, sym: string, ts: seq<Tick>, t: Tick)
    requires cfg.interval > 0 && cfg.window > 0
    ensures var (st, out) := RunTicks(cfg, sym, ts);
            && (IsLate(cfg, st, t) ==> Accepted(cfg, ts + [t]) == Accepted(cfg, ts))
            && (!IsLate(cfg, st, t) ==>
                  && Accepted(cfg, ts + [t]) == Accepted(cfg, ts) + [t]
                  && forall e :: e in out ==> e.start < BucketStart(t.ts, cfg.interval, cfg.offset))
  {
    RunKeeps(cfg, sym, ts);
    LatestTracks(cfg, sym, ts);
    var (st, out) := RunTicks(cfg, sym, ts);
    assert Init(ts + [t]) == ts;
    InvParts(cfg, sym, st, out, Accepted(cfg, ts));
    hide BucketStart, Inv, InvOut, InvPending;
    if !IsLate(cfg, st, t) {
      AboveEmitted(cfg, sym, st, out, Accepted(cfg, ts), t);
    }
  }

  /** Reorder-window exactness: with a positive window, whatever the order of the trades, the bars
      emitted up to and including the flush are in increasing order, one for every bucket with an
      accepted trade, and each counts exactly that bucket's accepted trades. */
  lemma WindowIsExact(cfg: Config, sym: string, ts: seq<Tick>)
    requires cfg.interval > 0 && cfg.window > 0
    ensures Exact(cfg, sym, Closed(cfg, sym, ts), Accepted(cfg, ts))
  {
    RunKeeps(cfg, sym, ts);
    var (st, out) := RunTicks(cfg, sym, ts);
    FlushCompletes(cfg, sym, st, out, Accepted(cfg, ts));
  }

  lemma FlushCompletes(cfg: Config, sym: string, st: SymState, out: seq<Bar>, ts: seq<Tick>)
    requires cfg.interval > 0 && Inv(cfg, sym, st, out, ts)
    ensures Exact(cfg, sym, out + Flushed(st).1, ts)
  {
    var ks, es := st.bars.Keys, Flushed(st).1;
    FlushEmitsAll(cfg, sym, st, ts);
    AllPending(cfg, sym, st, ts);
    EmittedBars(st, ks);
    hide BucketStart, Emitted, Flushed, Inv, InvPending, InvOut, Rising, Direct, FromPending, Covers, Placed;
    InvParts(cfg, sym, st, out, ts);
    AllDirect(cfg, sym, st, out, es, ts);
    FlushPlaces(cfg, st, out, es, ts);
  }

  lemma FlushPlaces(cfg: Config, st: SymState, out: seq<Bar>, es: seq<Bar>, ts: seq<Tick>)
    requires cfg.interval > 0 && Covers(es, st.bars.Keys)
    requires forall t :: t in ts ==> Placed(cfg, st, out, BucketStart(t.ts, cfg.interval, cfg.offset))
    ensures forall t :: t in ts ==>
              exists i :: 0 <= i < |out + es| && (out + es)[i].start == BucketStart(t.ts, cfg.interval, cfg.offset)
  {
    hide BucketStart;
    forall t | t in ts
      ensures exists i :: 0 <= i < |out + es| && (out + es)[i].start == BucketStart(t.ts, cfg.interval, cfg.offset)
    {
      var b := BucketStart(t.ts, cfg.interval, cfg.offset);
      assert Placed(cfg, st, out, b);
      if b in st.bars {
        var i :| 0 <= i < |es| && es[i].start == b;
        assert (out + es)[|out| + i].start == b;
      } else {
        var i :| 0 <= i < |out| && out[i].start == b;
        assert (out + es)[i].start == b;
      }
    }
  }

  lemma InvParts(cfg: Config, sym: string, st: SymState, out: seq<Bar>, ts: seq<Tick>)
    requires cfg.interval > 0 && Inv(cfg, sym, st, out, ts)
    ensures InvPending(cfg, sym, st, ts) && InvOut(cfg, sym, st, out, ts)
    ensures forall t :: t in ts ==> Placed(cfg, st, out, BucketStart(t.ts, cfg.interval, cfg.offset))
  {
  }

  lemma FlushEmitsAll(cfg: Config, sym: string, st: SymState, ts: seq<Tick>)
    requires cfg.interval > 0 && InvPending(cfg, sym, st, ts)
    ensures Flushed(st).1 == Emitted(st, st.bars.Keys).1
  {
    hide BucketStart, DirectBar, Select;
    assert st.bars.Keys == set s | s in st.bars && Pending(st, s);
  }

  lemma AllDirect(cfg: Config, sym: string, st: SymState, out: seq<Bar>, es: seq<Bar>, ts: seq<Tick>)
    requires cfg.interval > 0 && InvPending(cfg, sym, st, ts) && InvOut(cfg, sym, st, out, ts)
    requires Rising(es) && FromPending(st, es)
    ensures Rising(out + es) && Direct(cfg, sym, out + es, ts)
  {
    hide BucketStart, Select, Fold;
    assert forall i :: 0 <= i < |out| ==> out[i].start <= st.last;
  }

  // ---- any window ------------------------------------------------------------------------------

  ghost predicate InOrder(st: SymState, out: seq<Bar>) {
    Keyed(st.bars) && Rising(out) && st.hasEmitted == (out != []) && (out != [] ==> st.last == Last(out).start)
  }

  lemma RisingJoin(a: seq<Bar>, b: seq<Bar>)
    requires Rising(a) && Rising(b) && b != [] && (a != [] ==> Last(a).start < b[0].start)
    ensures Rising(a + b) && Last(a + b) == Last(b)
  {
  }

  lemma EmitInOrder(st: SymState, out: seq<Bar>, ks: set<int>)
    requires InOrder(st, out) && ks <= st.bars.Keys && forall s :: s in ks ==> Pending(st, s)
    ensures InOrder(Emitted(st, ks).0, out + Emitted(st, ks).1)
  {
    EmittedBars(st, ks);
    var (st', es) := Emitted(st, ks);
    hide Rising, Covers, BarsAt, Sorted, Greatest;
    if ks == {} {
      assert out + es == out;
    } else {
      RisingJoin(out, es);
    }
  }

  lemma TakenInOrder(cfg: Config, sym: string, st: SymState, out: seq<Bar>, t: Tick)
    requires cfg.interval > 0 && InOrder(st, out)
    ensures InOrder(Taken(cfg, sym, st, t), out)
  {
    hide BucketStart, Rising;
  }

  lemma ReadyIsPending(st: SymState, watermark: int)
    ensures Ready(st, watermark) <= st.bars.Keys && forall s :: s in Ready(st, watermark) ==> Pending(st, s)
  {
  }

  lemma OfferInOrder(cfg: Config, sym: string, st: SymState, out: seq<Bar>, t: Tick)
    requires cfg.interval > 0 && InOrder(st, out)
    ensures InOrder(Offered(cfg, sym, st, t).0, out + Offered(cfg, sym, st, t).1)
  {
    hide BucketStart, Emitted, InOrder, Ready, Taken;
    TakenInOrder(cfg, sym, st, out, t);
    var st' := Taken(cfg, sym, st, t);
    ReadyIsPending(st', st'.latest - cfg.window);
    EmitInOrder(st', out, Ready(st', st'.latest - cfg.window));
  }

  lemma {:induction false} RunInOrder(cfg: Config, sym: string, ts: seq<Tick>)
    requires cfg.interval > 0
    ensures InOrder(RunTicks(cfg, sym, ts).0, RunTicks(cfg, sym, ts).1)
    decreases |ts|
  {
    if ts != [] {
      hide Offered, InOrder;
      RunInOrder(cfg, sym, Init(ts));
      OfferInOrder(cfg, sym, RunTicks(cfg, sym, Init(ts)).0, RunTicks(cfg, sym, Init(ts)).1, Last(ts));
    } else {
      assert InOrder(FRESH, []);
    }
  }

  /** Whatever the window, also none: starts come out in strictly increasing order, so no bucket is
      ever emitted twice. */
  lemma EmissionRises(cfg: Config, sym: string, ts: seq<Tick>)
    requires cfg.interval > 0
    ensures Rising(Closed(cfg, sym, ts))
  {
    RunInOrder(cfg, sym, ts);
    var (st, out) := RunTicks(cfg, sym, ts);
    var ks := set s | s in st.bars && Pending(st, s);
    EmitInOrder(st, out, ks);
    if ks == {} {
      assert Sorted(ks) == [];
    }
    assert Flushed(st).1 == Emitted(st, ks).1;
  }
}
