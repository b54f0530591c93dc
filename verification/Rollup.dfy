/** Rolling bars of a short interval up into bars of a longer one, with gap filling
    (internal/quotes/kline/agg.go, RollupAgg). */
module Rollup {
  import opened Basics
  import opened Bytes
  import opened Candles
  import opened Watermark

  datatype RollConfig = RollConfig(interval: int, offset: int, fill: bool)

  function Opened(cfg: RollConfig, child: Bar, bs: int): Bar {
    Bar(child.symbol, bs, bs + cfg.interval, child.candle, 1)
  }

  function Flat(c: i64): Candle {
    Candle(c, c, c, c, 0)
  }

  /** Empty bars at the last close, one per skipped bucket. */
  function Fillers(cfg: RollConfig, sym: string, close: i64, next: int, bs: int): seq<Bar>
    requires cfg.interval > 0
    decreases bs - next
  {
    if next >= bs then []
    else [Bar(sym, next, next + cfg.interval, Flat(close), 0)] + Fillers(cfg, sym, close, next + cfg.interval, bs)
  }

  function RollOffer(cfg: RollConfig, cur: Option<Bar>, child: Bar): (Option<Bar>, seq<Bar>)
    requires cfg.interval > 0
  {
    var bs := BucketStart(child.start, cfg.interval, cfg.offset);
    if cur.None? then (Some(Opened(cfg, child, bs)), [])
    else
      var cb := cur.value;
      if bs > cb.start then
        (Some(Opened(cfg, child, bs)),
         [cb] + (if cfg.fill then Fillers(cfg, child.symbol, cb.candle.close, cb.start + cfg.interval, bs) else []))
      else if bs < cb.start then (cur, [])
      else (Some(cb.(candle := Join(cb.candle, child.candle), count := cb.count + 1)), [])
  }

  function RollRun(cfg: RollConfig, children: seq<Bar>): (Option<Bar>, seq<Bar>)
    requires cfg.interval > 0
    decreases |children|
  {
    if children == [] then (None, [])
    else
      var (cur, out) := RollRun(cfg, Init(children));
      var (cur', es) := RollOffer(cfg, cur, Last(children));
      (cur', out + es)
  }

  function Tail(cur: Option<Bar>): seq<Bar> {
    if cur.Some? && cur.value.count > 0 then [cur.value] else []
  }

  /** Everything a rollup has emitted once it is flushed. */
  function RollClosed(cfg: RollConfig, children: seq<Bar>): seq<Bar>
    requires cfg.interval > 0
  {
    RollRun(cfg, children).1 + Tail(RollRun(cfg, children).0)
  }

  // ---- the chain never drops -------------------------------------------------------------------

  lemma {:induction false} CurIsLastBucket(cfg: RollConfig, children: seq<Bar>)
    requires cfg.interval > 0 && Rising(children) && children != []
    ensures var cur := RollRun(cfg, children).0;
            && cur.Some? && cur.value.count > 0
            && cur.value.start == BucketStart(Last(children).start, cfg.interval, cfg.offset)
            && cur.value.end == cur.value.start + cfg.interval
    decreases |children|
  {
    if |children| > 1 {
      CurIsLastBucket(cfg, Init(children));
      BucketMonotone(Last(Init(children)).start, Last(children).start, cfg.interval, cfg.offset);
    }
    hide BucketStart, Fillers;
  }

  /** Fed bars of increasing start, a rollup never meets a bar older than its current one. */
  lemma DropUnreachable(cfg: RollConfig, children: seq<Bar>, k: nat)
    requires cfg.interval > 0 && Rising(children) && k < |children|
    ensures var cur := RollRun(cfg, children[..k]).0;
            cur.Some? ==> cur.value.start <= BucketStart(children[k].start, cfg.interval, cfg.offset)
  {
    if k > 0 {
      CurIsLastBucket(cfg, children[..k]);
      BucketMonotone(children[k - 1].start, children[k].start, cfg.interval, cfg.offset);
    }
  }

  // ---- the shape of the output -------------------------------------------------------------------

  /** A filler repeats the close before it and has no volume. */
  ghost predicate FillersFlat(bars: seq<Bar>) {
    forall k :: 0 <= k < |bars| && bars[k].count == 0 ==> k > 0 && bars[k].candle == Flat(bars[k - 1].candle.close)
  }

  ghost predicate Gapless(bars: seq<Bar>, interval: int) {
    forall k :: 0 < k < |bars| ==> bars[k].start == bars[k - 1].start + interval
  }

  /** n fillers, the first at next. */
  ghost predicate FilledRun(cfg: RollConfig, close: i64, next: int, fs: seq<Bar>) {
    forall k :: 0 <= k < |fs| ==> fs[k].start == next + k * cfg.interval && fs[k].candle == Flat(close) && fs[k].count == 0
  }

  lemma {:induction false} FillersAre(cfg: RollConfig, sym: string, close: i64, next: int, bs: int, n: nat)
    requires cfg.interval > 0 && bs == next + n * cfg.interval
    ensures var fs := Fillers(cfg, sym, close, next, bs); |fs| == n && FilledRun(cfg, close, next, fs)
    decreases n
  {
    if n > 0 {
      OneLess(n, cfg.interval);
      FillersAre(cfg, sym, close, next + cfg.interval, bs, n - 1);
      var f, fs := Bar(sym, next, next + cfg.interval, Flat(close), 0), Fillers(cfg, sym, close, next + cfg.interval, bs);
      assert Fillers(cfg, sym, close, next, bs) == [f] + fs;
      hide Fillers;
      FilledCons(cfg, close, next, f, fs);
    } else {
      hide Flat;
    }
  }

  lemma OneLess(n: int, i: int)
    requires n > 0 && i > 0
    ensures n * i == i + (n - 1) * i && (n - 1) * i >= 0
  {
  }

  lemma FilledCons(cfg: RollConfig, close: i64, next: int, f: Bar, fs: seq<Bar>)
    requires cfg.interval > 0 && FilledRun(cfg, close, next + cfg.interval, fs)
    requires f.start == next && f.candle == Flat(close) && f.count == 0
    ensures FilledRun(cfg, close, next, [f] + fs)
  {
    var all := [f] + fs;
    hide Flat;
    forall k | 0 <= k < |all|
      ensures all[k].start == next + k * cfg.interval && all[k].candle == Flat(close) && all[k].count == 0
    {
      if k > 0 {
        assert all[k] == fs[k - 1];
        OneLess(k, cfg.interval);
      }
    }
  }

  ghost predicate Shaped(cfg: RollConfig, bars: seq<Bar>) {
    Rising(bars) && FillersFlat(bars) && (cfg.fill ==> Gapless(bars, cfg.interval))
  }

  lemma ShapeOpens(cfg: RollConfig, out: seq<Bar>, cb: Bar, fs: seq<Bar>, next: Bar, n: nat)
    requires cfg.interval > 0 && Shaped(cfg, out + [cb]) && cb.count > 0 && next.count > 0
    requires FilledRun(cfg, cb.candle.close, cb.start + cfg.interval, fs)
    requires if cfg.fill then |fs| == n else fs == []
    requires next.start == cb.start + cfg.interval + n * cfg.interval
    ensures Shaped(cfg, out + [cb] + fs + [next])
  {
    var all := out + [cb] + fs + [next];
    hide FillersFlat, FilledRun;
    StepsOpen(cfg, out, cb, fs, next, n);
    AdjacentRising(all);
    FlatOpens(cfg, out, cb, fs, next);
    hide Rising;
  }

  /** Each bar starts after the one before it, with gap filling one interval after it. */
  lemma StepsOpen(cfg: RollConfig, out: seq<Bar>, cb: Bar, fs: seq<Bar>, next: Bar, n: nat)
    requires cfg.interval > 0 && Rising(out + [cb]) && (cfg.fill ==> Gapless(out + [cb], cfg.interval))
    requires FilledRun(cfg, cb.candle.close, cb.start + cfg.interval, fs)
    requires if cfg.fill then |fs| == n else fs == []
    requires next.start == cb.start + cfg.interval + n * cfg.interval
    ensures var all := out + [cb] + fs + [next];
            forall k :: 0 < k < |all| ==>
              all[k - 1].start < all[k].start && (cfg.fill ==> all[k].start == all[k - 1].start + cfg.interval)
  {
    hide Flat;
    var head := out + [cb];
    var all := head + fs + [next];
    forall k | 0 < k < |all|
      ensures all[k - 1].start < all[k].start && (cfg.fill ==> all[k].start == all[k - 1].start + cfg.interval)
    {
      if k < |head| {
        assert all[k] == head[k] && all[k - 1] == head[k - 1];
      } else if k < |head| + |fs| {
        var j := k - |head|;
        assert all[k] == fs[j] && all[k - 1] == if j == 0 then cb else fs[j - 1];
        StepBy(j, cfg.interval);
      } else {
        assert all[k] == next && all[k - 1] == if fs == [] then cb else fs[|fs| - 1];
        StepBy(n, cfg.interval);
      }
    }
  }

  lemma StepBy(k: nat, i: int)
    requires i > 0
    ensures k * i >= 0 && (k > 0 ==> k * i == (k - 1) * i + i) && (k == 0 ==> k * i == 0)
  {
  }

  lemma FlatOpens(cfg: RollConfig, out: seq<Bar>, cb: Bar, fs: seq<Bar>, next: Bar)
    requires FillersFlat(out + [cb]) && cb.count > 0 && next.count > 0
    requires FilledRun(cfg, cb.candle.close, cb.start + cfg.interval, fs)
    ensures FillersFlat(out + [cb] + fs + [next])
  {
    var head := out + [cb];
    var all := head + fs + [next];
    assert forall j :: 0 <= j < |fs| ==> fs[j].candle == Flat(cb.candle.close) && fs[j].candle.close == cb.candle.close;
    hide Flat, FilledRun;
    forall k | 0 <= k < |all| && all[k].count == 0
      ensures k > 0 && all[k].candle == Flat(all[k - 1].candle.close)
    {
      if k < |head| {
        assert all[k] == head[k];
        assert k > 0 ==> all[k - 1] == head[k - 1];
      } else {
        var j := k - |head|;
        assert j < |fs| && all[k] == fs[j] && all[k - 1] == if j == 0 then cb else fs[j - 1];
      }
    }
  }

  lemma {:induction false} AdjacentRising(bars: seq<Bar>)
    requires forall k :: 0 < k < |bars| ==> bars[k - 1].start < bars[k].start
    ensures Rising(bars)
    decreases |bars|
  {
    if |bars| > 1 {
      AdjacentRising(Init(bars));
      forall i, j | 0 <= i < j < |bars|
        ensures bars[i].start < bars[j].start
      {
        assert bars[|bars| - 2].start < bars[|bars| - 1].start;
        assert i < |bars| - 2 ==> Init(bars)[i].start < Init(bars)[|bars| - 2].start;
        assert j < |bars| - 1 ==> Init(bars)[i].start < Init(bars)[j].start;
      }
    }
  }

  /** Increasing starts; with gap filling starts that differ by exactly one interval; and fillers
      that carry the last close with zero volume. */
  lemma {:induction false} RollShape(cfg: RollConfig, children: seq<Bar>)
    requires cfg.interval > 0 && Rising(children)
    ensures Shaped(cfg, RollClosed(cfg, children))
    decreases |children|
  {
    if |children| == 1 {
      assert Init(children) == [];
      hide BucketStart;
    } else if |children| > 1 {
      RollShape(cfg, Init(children));
      RollShapeStep(cfg, children);
    }
  }

  lemma RollClosedStep(cfg: RollConfig, children: seq<Bar>)
    requires cfg.interval > 0 && children != []
    ensures var (cur, out) := RollRun(cfg, Init(children));
            var (cur', es) := RollOffer(cfg, cur, Last(children));
            && RollRun(cfg, children) == (cur', out + es)
            && RollClosed(cfg, children) == out + es + Tail(cur') == out + (es + Tail(cur'))
  {
    hide RollOffer;
  }

  lemma RollShapeStep(cfg: RollConfig, children: seq<Bar>)
    requires cfg.interval > 0 && Rising(children) && |children| > 1 && Shaped(cfg, RollClosed(cfg, Init(children)))
    ensures Shaped(cfg, RollClosed(cfg, children))
  {
    hide BucketStart, RollRun, Shaped, Fillers, RollOffer;
    var (cur, out) := RollRun(cfg, Init(children));
    var child, bs := Last(children), BucketStart(Last(children).start, cfg.interval, cfg.offset);
    RollClosedStep(cfg, children);
    CurIsLastBucket(cfg, Init(children));
    DropUnreachable(cfg, children, |children| - 1);
    assert children[..|children| - 1] == Init(children);
    if bs > cur.value.start {
      var k := BucketsApart(Last(Init(children)).start, child.start, cfg.interval, cfg.offset);
      OpenShape(cfg, out, cur.value, child, k);
    } else {
      SameBucket(cfg, cur.value, child);
      assert out + [] == out;
      MergeShape(cfg, out, cur.value, RollOffer(cfg, cur, child).0.value);
    }
  }

  lemma SameBucket(cfg: RollConfig, cb: Bar, child: Bar)
    requires cfg.interval > 0 && cb.start == BucketStart(child.start, cfg.interval, cfg.offset)
    ensures var (cur', es) := RollOffer(cfg, Some(cb), child);
            es == [] && cur'.Some? && cur'.value.start == cb.start && cur'.value.count > 0
  {
    hide BucketStart;
  }

  lemma OpenShape(cfg: RollConfig, out: seq<Bar>, cb: Bar, child: Bar, k: int)
    requires cfg.interval > 0 && Shaped(cfg, out + [cb]) && cb.count > 0 && k >= 1
    requires BucketStart(child.start, cfg.interval, cfg.offset) == cb.start + k * cfg.interval > cb.start
    ensures var (cur', es) := RollOffer(cfg, Some(cb), child); Shaped(cfg, out + es + Tail(cur'))
  {
    hide BucketStart, Shaped, Fillers;
    var (cur', es) := RollOffer(cfg, Some(cb), child);
    var bs := BucketStart(child.start, cfg.interval, cfg.offset);
    assert k * cfg.interval == cfg.interval + (k - 1) * cfg.interval;
    var fs := if cfg.fill then Fillers(cfg, child.symbol, cb.candle.close, cb.start + cfg.interval, bs) else [];
    FillersAre(cfg, child.symbol, cb.candle.close, cb.start + cfg.interval, bs, k - 1);
    ShapeOpens(cfg, out, cb, fs, cur'.value, k - 1);
    assert out + ([cb] + fs) == out + [cb] + fs;
  }

  lemma MergeShape(cfg: RollConfig, out: seq<Bar>, cb: Bar, cb': Bar)
    requires Shaped(cfg, out + [cb]) && cb'.start == cb.start && cb'.count > 0
    ensures Shaped(cfg, out + [cb'])
  {
    var a, b := out + [cb], out + [cb'];
    assert forall k :: 0 <= k < |out| ==> a[k] == b[k];
    assert forall k :: 0 <= k < |a| ==> a[k].start == b[k].start;
  }

  // ---- fillers change nothing else ---------------------------------------------------------------

  /** The bars with something in them. */
  function Real(bars: seq<Bar>): seq<Bar>
    decreases |bars|
  {
    if bars == [] then [] else Real(Init(bars)) + (if Last(bars).count > 0 then [Last(bars)] else [])
  }

  lemma {:induction false} RealAppend(a: seq<Bar>, b: seq<Bar>)
    ensures Real(a + b) == Real(a) + Real(b)
    decreases |b|
  {
    if b == [] {
      assert a + b == a;
    } else {
      RealAppend(a, Init(b));
      assert Init(a + b) == a + Init(b) && Last(a + b) == Last(b);
      RealLast(a + b);
      RealLast(b);
      hide Real;
      Associative(Real(a), Real(Init(b)), if Last(b).count > 0 then [Last(b)] else []);
    }
  }

  lemma RealLast(bars: seq<Bar>)
    requires bars != []
    ensures Real(bars) == Real(Init(bars)) + (if Last(bars).count > 0 then [Last(bars)] else [])
  {
  }

  lemma {:induction false} FillersNotReal(cfg: RollConfig, sym: string, close: i64, next: int, bs: int)
    requires cfg.interval > 0
    ensures Real(Fillers(cfg, sym, close, next, bs)) == []
    decreases bs - next
  {
    if next < bs {
      var f := Bar(sym, next, next + cfg.interval, Flat(close), 0);
      FillersNotReal(cfg, sym, close, next + cfg.interval, bs);
      RealAppend([f], Fillers(cfg, sym, close, next + cfg.interval, bs));
      assert Real([f]) == [] by {
        assert Init([f]) == [];
      }
    }
  }

  lemma RealOne(b: Bar)
    ensures Real([]) == [] && Real([b]) == if b.count > 0 then [b] else []
  {
    assert Init([b]) == [];
  }

  lemma FillStep(cfg: RollConfig, cur: Option<Bar>, child: Bar)
    requires cfg.interval > 0 && (cur.Some? ==> cur.value.count > 0)
    ensures var (with, es) := RollOffer(cfg.(fill := true), cur, child);
            var (without, es0) := RollOffer(cfg.(fill := false), cur, child);
            && with == without && Real(es) == es0 && (with.Some? ==> with.value.count > 0)
  {
    RealOne(child);
    hide BucketStart, Fillers, Join, Real;
    if cur.Some? {
      var bs := BucketStart(child.start, cfg.interval, cfg.offset);
      var cb := cur.value;
      RealOne(cb);
      var fs := Fillers(cfg.(fill := true), child.symbol, cb.candle.close, cb.start + cfg.interval, bs);
      FillersNotReal(cfg.(fill := true), child.symbol, cb.candle.close, cb.start + cfg.interval, bs);
      RealAppend([cb], fs);
      assert [cb] + [] == [cb];
    }
  }

  /** Gap filling only inserts fillers: the bars with something in them are the same as without. */
  lemma {:induction false} FillingOnlyInserts(cfg: RollConfig, children: seq<Bar>)
    requires cfg.interval > 0
    ensures var (with, out) := RollRun(cfg.(fill := true), children);
            var (without, out0) := RollRun(cfg.(fill := false), children);
            && with == without && Real(out) == out0 && (with.Some? ==> with.value.count > 0)
    decreases |children|
  {
    if children != [] {
      FillingOnlyInserts(cfg, Init(children));
      var (cur, out) := RollRun(cfg.(fill := true), Init(children));
      FillStep(cfg, cur, Last(children));
      RealAppend(out, RollOffer(cfg.(fill := true), cur, Last(children)).1);
      hide RollOffer;
    }
  }

  // ---- conservation ------------------------------------------------------------------------------

  function Volume(bars: seq<Bar>): i64
    decreases |bars|
  {
    if bars == [] then 0 else Plus(Volume(Init(bars)), Last(bars).candle.volume)
  }

  lemma VolumeLast(bars: seq<Bar>)
    requires bars != []
    ensures Volume(bars) == Plus(Volume(Init(bars)), Last(bars).candle.volume)
  {
  }

  lemma {:induction false} VolumeAppend(a: seq<Bar>, b: seq<Bar>)
    ensures Volume(a + b) == Plus(Volume(a), Volume(b))
    decreases |b|
  {
    hide Plus;
    if b == [] {
      assert a + b == a;
      PlusZero(Volume(a));
    } else {
      VolumeAppend(a, Init(b));
      assert Init(a + b) == a + Init(b);
      PlusAssociative(Volume(a), Volume(Init(b)), Last(b).candle.volume);
    }
  }

  lemma {:induction false} FillersWeightless(cfg: RollConfig, sym: string, close: i64, next: int, bs: int)
    requires cfg.interval > 0
    ensures Volume(Fillers(cfg, sym, close, next, bs)) == 0
    decreases bs - next
  {
    if next < bs {
      var f := Bar(sym, next, next + cfg.interval, Flat(close), 0);
      FillersWeightless(cfg, sym, close, next + cfg.interval, bs);
      VolumeAppend([f], Fillers(cfg, sym, close, next + cfg.interval, bs));
      assert Volume([f]) == 0 by {
        assert Init([f]) == [];
      }
    }
  }

  lemma VolumeOne(b: Bar)
    ensures Volume([b]) == b.candle.volume
  {
    assert Init([b]) == [];
    PlusZero(b.candle.volume);
  }

  lemma OpenVolume(cfg: RollConfig, cb: Bar, child: Bar, fs: seq<Bar>, next: Bar)
    requires Volume(fs) == 0 && next.candle.volume == child.candle.volume
    ensures Volume([cb] + fs + [next]) == Plus(cb.candle.volume, child.candle.volume)
  {
    VolumeOne(cb);
    VolumeOne(next);
    PlusZero(cb.candle.volume);
    hide Plus, Volume;
    VolumeAppend([cb] + fs, [next]);
    VolumeAppend([cb], fs);
  }

  lemma VolumeStep(cfg: RollConfig, cur: Option<Bar>, child: Bar)
    requires cfg.interval > 0
    requires cur.Some? ==> cur.value.count > 0 && cur.value.start <= BucketStart(child.start, cfg.interval, cfg.offset)
    ensures var (cur', es) := RollOffer(cfg, cur, child);
            Volume(es + Tail(cur')) == Plus(Volume(Tail(cur)), child.candle.volume)
  {
    var (cur', es) := RollOffer(cfg, cur, child);
    VolumeOne(cur'.value);
    PlusZero(child.candle.volume);
    if cur.Some? {
      var cb := cur.value;
      VolumeOne(cb);
      var bs := BucketStart(child.start, cfg.interval, cfg.offset);
      hide BucketStart, Volume, Plus, Fillers;
      if bs > cb.start {
        var fs := if cfg.fill then Fillers(cfg, child.symbol, cb.candle.close, cb.start + cfg.interval, bs) else [];
        FillersWeightless(cfg, child.symbol, cb.candle.close, cb.start + cfg.interval, bs);
        VolumeNone();
        OpenVolume(cfg, cb, child, fs, cur'.value);
      } else {
        assert [] + Tail(cur') == [cur'.value];
      }
    } else {
      VolumeNone();
      assert [] + Tail(cur') == [cur'.value];
    }
  }

  lemma VolumeNone()
    ensures Volume([]) == 0
  {
  }

  lemma ConservesStep(before: i64, v: i64, out: seq<Bar>, tail: seq<Bar>, next: seq<Bar>)
    requires Volume(out + tail) == before && Volume(next) == Plus(Volume(tail), v)
    ensures Volume(out + next) == Plus(before, v)
  {
    hide Plus, Volume;
    VolumeAppend(out, next);
    VolumeAppend(out, tail);
    PlusAssociative(Volume(out), Volume(tail), v);
  }

  /** Volume conservation: the flushed output of a rollup holds exactly the volume of its input, in
      64-bit arithmetic, filled or not. */
  lemma {:induction false} RollConserves(cfg: RollConfig, children: seq<Bar>)
    requires cfg.interval > 0 && Rising(children)
    ensures Volume(RollClosed(cfg, children)) == Volume(children)
    decreases |children|
  {
    if children != [] {
      var before, child := Init(children), Last(children);
      RollConserves(cfg, before);
      RollClosedStep(cfg, children);
      VolumeLast(children);
      var cur, out := RollRun(cfg, before).0, RollRun(cfg, before).1;
      assert Volume(out + Tail(cur)) == Volume(before);
      NeverOlder(cfg, children);
      hide *;
      VolumeStep(cfg, cur, child);
      var offer := RollOffer(cfg, cur, child);
      ConservesStep(Volume(before), child.candle.volume, out, Tail(cur), offer.1 + Tail(offer.0));
    }
  }

  lemma NeverOlder(cfg: RollConfig, children: seq<Bar>)
    requires cfg.interval > 0 && Rising(children) && children != []
    ensures var cur := RollRun(cfg, Init(children)).0;
            cur.Some? ==>
              cur.value.count > 0 && cur.value.start <= BucketStart(Last(children).start, cfg.interval, cfg.offset)
  {
    if |children| > 1 {
      CurIsLastBucket(cfg, Init(children));
    }
    DropUnreachable(cfg, children, |children| - 1);
    assert children[..|children| - 1] == Init(children);
  }
}
