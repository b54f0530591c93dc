/** The chain 1s to 1m to 1h to 1d against direct aggregation (internal/quotes/kline/shard.go). */
module Cascade {
  import opened Basics
  import opened Bytes
  import opened Candles
  import opened Watermark
  import opened Rollup
  import opened Summaries
  import opened InnerBuckets
  import opened Carrying

  // ---- the chain -----------------------------------------------------------------------------------

  lemma {:induction false} RealTwice(bars: seq<Bar>)
    ensures Real(Real(bars)) == Real(bars)
    decreases |bars|
  {
    if bars != [] {
      RealTwice(Init(bars));
      RealOne(Last(bars));
      RealAppend(Real(Init(bars)), if Last(bars).count > 0 then [Last(bars)] else []);
    }
  }

  /** Filled or not, the bars with something in them are those of the unfilled rollup. */
  lemma RealClosed(cfg: RollConfig, children: seq<Bar>)
    requires cfg.interval > 0
    ensures Real(RollClosed(cfg, children)) == RollClosed(cfg.(fill := false), children)
  {
    FillingOnlyInserts(cfg, children);
    var (cur, out) := RollRun(cfg.(fill := true), children);
    RealTwice(out);
    var plain := RollRun(cfg.(fill := false), children).1;
    if cur.Some? {
      RealOne(cur.value);
    }
    assert cfg == cfg.(fill := true) || cfg == cfg.(fill := false);
    hide RollRun;
    RealAppend(RollRun(cfg, children).1, Tail(cur));
    assert Real([]) == [];
  }

  const SECOND := 1000
  const MINUTE := 60_000
  const HOUR := 3_600_000
  const DAY := 86_400_000

  /** The four levels of one symbol, flushed in order. */
  datatype Levels = Levels(seconds: seq<Bar>, minutes: seq<Bar>, hours: seq<Bar>, days: seq<Bar>)

  datatype Chain = Chain(offset: int, window: int, fill1m: bool, fill1h: bool, fill1d: bool)

  function SecondsOf(c: Chain): Config {
    Config(SECOND, c.offset, c.window)
  }

  function MinutesOf(c: Chain): RollConfig {
    RollConfig(MINUTE, c.offset, c.fill1m)
  }

  function HoursOf(c: Chain): RollConfig {
    RollConfig(HOUR, c.offset, c.fill1h)
  }

  function DaysOf(c: Chain): RollConfig {
    RollConfig(DAY, c.offset, c.fill1d)
  }

  ghost function Chained(c: Chain, sym: string, ts: seq<Tick>): Levels {
    var seconds := Closed(SecondsOf(c), sym, ts);
    var minutes := RollClosed(MinutesOf(c), seconds);
    var hours := RollClosed(HoursOf(c), minutes);
    Levels(seconds, minutes, hours, RollClosed(DaysOf(c), hours))
  }

  /** Every level rises; a filled one steps by exactly its interval; fillers are flat and empty. */
  lemma ChainShape(c: Chain, sym: string, ts: seq<Tick>)
    ensures var l := Chained(c, sym, ts);
            && Rising(l.seconds) && Shaped(MinutesOf(c), l.minutes)
            && Shaped(HoursOf(c), l.hours) && Shaped(DaysOf(c), l.days)
  {
    hide Closed, RollClosed, Rising, FillersFlat, Gapless;
    var l := Chained(c, sym, ts);
    EmissionRises(SecondsOf(c), sym, ts);
    RollShape(MinutesOf(c), l.seconds);
    RollShape(HoursOf(c), l.minutes);
    RollShape(DaysOf(c), l.hours);
  }

  /** Volume conservation through the chain, for every window and every gap-fill setting, in 64-bit
      arithmetic; with a positive window the volume is the sum of the accepted sizes. */
  lemma ChainConserves(c: Chain, sym: string, ts: seq<Tick>)
    ensures var l := Chained(c, sym, ts);
            && Volume(l.seconds) == Volume(l.minutes) == Volume(l.hours) == Volume(l.days)
            && (c.window > 0 ==> Volume(l.seconds) == Total(Accepted(SecondsOf(c), ts)))
  {
    hide Closed, RollClosed, Rising, FillersFlat, Gapless, Exact, Summarises, StableSorted, Accepted, Volume, Total;
    hide BucketSorted, SameSelects;
    var l := Chained(c, sym, ts);
    ChainShape(c, sym, ts);
    RollConserves(MinutesOf(c), l.seconds);
    RollConserves(HoursOf(c), l.minutes);
    RollConserves(DaysOf(c), l.hours);
    if c.window > 0 {
      var cfg, trades := SecondsOf(c), Accepted(SecondsOf(c), ts);
      WindowIsExact(cfg, sym, ts);
      ExactSummarises(cfg, sym, l.seconds, trades);
      StableSortedIs(trades, cfg.interval, cfg.offset);
      SummaryVolume(l.seconds, StableSorted(trades, cfg.interval, cfg.offset), cfg.interval, cfg.offset);
    }
  }

  // ---- the chain against its trades ------------------------------------------------------------------

  /** The accepted trades in stable 1s order. */
  ghost function Trades(c: Chain, ts: seq<Tick>): seq<Tick> {
    StableSorted(Accepted(SecondsOf(c), ts), SECOND, c.offset)
  }

  /** The width of the buckets whose first one decides how an hour starts: the filled minutes, or the hour
      itself when nothing below is filled. */
  function HourGrain(c: Chain): int {
    if c.fill1m then MINUTE else HOUR
  }

  function DayGrain(c: Chain): int {
    if c.fill1m then MINUTE else if c.fill1h then HOUR else DAY
  }

  lemma SecondsDirect(c: Chain, sym: string, ts: seq<Tick>)
    requires c.window > 0
    ensures Summarises(Chained(c, sym, ts).seconds, Trades(c, ts), SECOND, c.offset)
    ensures BucketSorted(Trades(c, ts), SECOND, c.offset)
    ensures BucketSorted(Trades(c, ts), MINUTE, c.offset) && BucketSorted(Trades(c, ts), HOUR, c.offset)
    ensures BucketSorted(Trades(c, ts), DAY, c.offset)
  {
    hide Closed, RollClosed, Exact, Summarises, StableSorted, Accepted, BucketSorted, SameSelects;
    WindowIsExact(SecondsOf(c), sym, ts);
    ExactSummarises(SecondsOf(c), sym, Closed(SecondsOf(c), sym, ts), Accepted(SecondsOf(c), ts));
    StableSortedIs(Accepted(SecondsOf(c), ts), SECOND, c.offset);
    SortedNests(Trades(c, ts), SECOND, 60, c.offset);
    SortedNests(Trades(c, ts), MINUTE, 60, c.offset);
    SortedNests(Trades(c, ts), HOUR, 24, c.offset);
  }

  /** Above levels that are not filled, the bars with something in them are plain summaries. */
  lemma PlainLevels(c: Chain, sym: string, ts: seq<Tick>)
    requires c.window > 0
    ensures var l, trades := Chained(c, sym, ts), Trades(c, ts);
            && Summarises(Real(l.minutes), trades, MINUTE, c.offset)
            && (!c.fill1m ==> Summarises(l.minutes, trades, MINUTE, c.offset))
            && (!c.fill1m ==> Summarises(Real(l.hours), trades, HOUR, c.offset))
            && (!c.fill1m && !c.fill1h ==> Summarises(l.hours, trades, HOUR, c.offset))
            && (!c.fill1m && !c.fill1h ==> Summarises(Real(l.days), trades, DAY, c.offset))
  {
    hide Closed, RollClosed, Summarises, BucketSorted, Trades, Real;
    var l, trades := Chained(c, sym, ts), Trades(c, ts);
    SecondsDirect(c, sym, ts);
    RealClosed(MinutesOf(c), l.seconds);
    RollSummarises(MinutesOf(c).(fill := false), l.seconds, trades, SECOND, 60);
    if !c.fill1m {
      assert MinutesOf(c).(fill := false) == MinutesOf(c);
      RealClosed(HoursOf(c), l.minutes);
      RollSummarises(HoursOf(c).(fill := false), l.minutes, trades, MINUTE, 60);
      if !c.fill1h {
        assert HoursOf(c).(fill := false) == HoursOf(c);
        RealClosed(DaysOf(c), l.hours);
        RollSummarises(DaysOf(c).(fill := false), l.hours, trades, HOUR, 24);
      }
    }
  }

  /** The cascade equals direct aggregation, for every gap-fill setting. Over the accepted trades in stable
      1s order the 1s bars are the folds of their buckets and so are the 1m bars that are no fillers; every
      bar of every level is the reference candle of its bucket, in which the close before takes part exactly
      when the finest filled bucket at its start saw no trade; and a level above a filled one has no gaps. */
  lemma ChainIsDirect(c: Chain, sym: string, ts: seq<Tick>)
    requires c.window > 0
    ensures var l, trades := Chained(c, sym, ts), Trades(c, ts);
            && Summarises(l.seconds, trades, SECOND, c.offset)
            && Summarises(Real(l.minutes), trades, MINUTE, c.offset)
            && (!c.fill1m ==> Summarises(Real(l.hours), trades, HOUR, c.offset))
            && (!c.fill1m && !c.fill1h ==> Summarises(Real(l.days), trades, DAY, c.offset))
            && Follows(l.minutes, trades, MINUTE, c.offset, MINUTE)
            && Follows(l.hours, trades, HOUR, c.offset, HourGrain(c))
            && Follows(l.days, trades, DAY, c.offset, DayGrain(c))
            && (c.fill1m ==> Gapless(l.minutes, MINUTE))
            && (c.fill1m || c.fill1h ==> Gapless(l.hours, HOUR))
            && (c.fill1m || c.fill1h || c.fill1d ==> Gapless(l.days, DAY))
  {
    hide Closed, RollClosed, Summarises, Real, BucketSorted, Follows, Trades, Gapless, AllTraded, Rising, FillersFlat;
    var l, trades := Chained(c, sym, ts), Trades(c, ts);
    SecondsDirect(c, sym, ts);
    ChainShape(c, sym, ts);
    PlainLevels(c, sym, ts);
    SummaryFollows(l.seconds, trades, SECOND, c.offset);
    RollFollows(MinutesOf(c), l.seconds, trades, SECOND, 60, SECOND, 1, MINUTE, 1);
    HoursFollow(c, sym, ts);
    DaysFollow(c, sym, ts);
  }

  lemma HoursFollow(c: Chain, sym: string, ts: seq<Tick>)
    requires c.window > 0 && Follows(Chained(c, sym, ts).minutes, Trades(c, ts), MINUTE, c.offset, MINUTE)
    ensures Follows(Chained(c, sym, ts).hours, Trades(c, ts), HOUR, c.offset, HourGrain(c))
    ensures c.fill1m || c.fill1h ==> Gapless(Chained(c, sym, ts).hours, HOUR)
  {
    hide Closed, RollClosed, Summarises, BucketSorted, Follows, Trades, Gapless, AllTraded, Rising, FillersFlat;
    var l, trades := Chained(c, sym, ts), Trades(c, ts);
    SecondsDirect(c, sym, ts);
    ChainShape(c, sym, ts);
    if c.fill1m {
      RollGapless(HoursOf(c), l.minutes, trades, MINUTE, 60, MINUTE);
      RollFollows(HoursOf(c), l.minutes, trades, MINUTE, 60, MINUTE, 1, MINUTE, 60);
    } else {
      PlainLevels(c, sym, ts);
      SummaryFollows(l.minutes, trades, MINUTE, c.offset);
      RollFollows(HoursOf(c), l.minutes, trades, MINUTE, 60, MINUTE, 1, HOUR, 1);
    }
  }

  lemma DaysFollow(c: Chain, sym: string, ts: seq<Tick>)
    requires c.window > 0 && Follows(Chained(c, sym, ts).hours, Trades(c, ts), HOUR, c.offset, HourGrain(c))
    requires c.fill1m || c.fill1h ==> Gapless(Chained(c, sym, ts).hours, HOUR)
    ensures Follows(Chained(c, sym, ts).days, Trades(c, ts), DAY, c.offset, DayGrain(c))
    ensures c.fill1m || c.fill1h || c.fill1d ==> Gapless(Chained(c, sym, ts).days, DAY)
  {
    hide Closed, RollClosed, Summarises, BucketSorted, Follows, Trades, Gapless, AllTraded, Rising, FillersFlat;
    var l, trades := Chained(c, sym, ts), Trades(c, ts);
    SecondsDirect(c, sym, ts);
    ChainShape(c, sym, ts);
    if c.fill1m {
      RollGapless(DaysOf(c), l.hours, trades, HOUR, 24, MINUTE);
      RollFollows(DaysOf(c), l.hours, trades, HOUR, 24, MINUTE, 60, MINUTE, 1440);
    } else if c.fill1h {
      RollGapless(DaysOf(c), l.hours, trades, HOUR, 24, HOUR);
      RollFollows(DaysOf(c), l.hours, trades, HOUR, 24, HOUR, 1, HOUR, 24);
    } else {
      PlainLevels(c, sym, ts);
      SummaryFollows(l.hours, trades, HOUR, c.offset);
      RollFollows(DaysOf(c), l.hours, trades, HOUR, 24, HOUR, 1, DAY, 1);
    }
  }

  /** Every bar of an hour or a day: flat at the close before when nothing was traded; the fold of its
      trades when it is the first bar or its opening saw a trade; that fold led by the close before
      otherwise. A bar with trades is the direct aggregation exactly when it is the first one, its opening
      saw a trade, or the close before is the price of its first trade. */
  lemma HourAndDayBars(c: Chain, sym: string, ts: seq<Tick>, k: nat)
    requires c.window > 0
    ensures var bars, trades := Chained(c, sym, ts).hours, Trades(c, ts);
            k < |bars| ==>
              && BarMeans(bars, trades, HOUR, c.offset, HourGrain(c), k)
              && EqualsDirectIff(bars, trades, HOUR, c.offset, HourGrain(c), k)
    ensures var bars, trades := Chained(c, sym, ts).days, Trades(c, ts);
            k < |bars| ==>
              && BarMeans(bars, trades, DAY, c.offset, DayGrain(c), k)
              && EqualsDirectIff(bars, trades, DAY, c.offset, DayGrain(c), k)
  {
    hide Chained, Trades, Follows, BucketSorted, BarMeans, Select, Fold, BucketStart;
    var l, trades := Chained(c, sym, ts), Trades(c, ts);
    ChainIsDirect(c, sym, ts);
    SecondsDirect(c, sym, ts);
    if k < |l.hours| {
      FollowsMeans(l.hours, trades, HOUR, c.offset, HourGrain(c), HOUR / HourGrain(c), k);
      if Select(trades, HOUR, c.offset, l.hours[k].start) != [] {
        DirectIff(l.hours, trades, HOUR, c.offset, HourGrain(c), k);
      }
    }
    if k < |l.days| {
      FollowsMeans(l.days, trades, DAY, c.offset, DayGrain(c), DAY / DayGrain(c), k);
      if Select(trades, DAY, c.offset, l.days[k].start) != [] {
        DirectIff(l.days, trades, DAY, c.offset, DayGrain(c), k);
      }
    }
  }

  ghost predicate EqualsDirectIff(bars: seq<Bar>, ts: seq<Tick>, i: int, off: int, g: int, k: nat)
    requires i > 0 && g > 0 && k < |bars|
  {
    var own := Select(ts, i, off, bars[k].start);
    own != [] ==>
      (bars[k].candle == Fold(own) <==>
       || k == 0 || Select(ts, g, off, Opening(bars[k].start, i, g, off)) != []
       || bars[k - 1].candle.close == own[0].price)
  }

  /** One trade at 00:59 for 100 and one at 01:01 for 200. */
  const TWO_TRADES := [Tick(59 * MINUTE, 100, 1), Tick(61 * MINUTE, 200, 1)]

  /** With filled minutes the hour of the second trade opens at 100 and has its low there, although its only
      trade was for 200: the filler for 01:00 takes part in it. */
  lemma FilledHourStartsEarly(c: Chain, sym: string) returns (k: nat)
    requires c.window > 0 && c.offset == 0 && c.fill1m
    ensures var bars := Chained(c, sym, TWO_TRADES).hours;
            && k < |bars| && bars[k].start == HOUR && Select(Trades(c, TWO_TRADES), HOUR, 0, HOUR) == TWO_TRADES[1..]
            && bars[k].candle == Candle(100, 200, 100, 200, 1)
            && Fold(TWO_TRADES[1..]) == Candle(200, 200, 200, 200, 1)
  {
    BothAccepted(c);
    TwoBuckets();
    ChainIsDirect(c, sym, TWO_TRADES);
    var ts := TWO_TRADES;
    var bars := Chained(c, sym, ts).hours;
    hide Chained, BucketStart, Summarises, Fold, Trades, Gapless, Rising;
    assert ts[1] in ts;
    assert HasBar(bars, HOUR);
    k :| 0 <= k < |bars| && bars[k].start == HOUR;
    assert bars[k] in bars;
    hide Follows;
    assert Opening(HOUR, HOUR, MINUTE, 0) == HOUR;
    TwoCandles();
  }

  lemma BothAccepted(c: Chain)
    requires c.window > 0 && c.offset == 0
    ensures Trades(c, TWO_TRADES) == TWO_TRADES
  {
    var a, b := TWO_TRADES[0], TWO_TRADES[1];
    assert Init([a, b]) == [a] && Init([a]) == [] && TWO_TRADES == [a, b];
    assert LatestOf([a]) == a.ts && LatestOf([a, b]) == b.ts;
    assert Accepted(SecondsOf(c), [a]) == [a];
    assert Accepted(SecondsOf(c), [a, b]) == [a, b];
    assert StableSorted([a], SECOND, 0) == [a];
  }

  lemma TwoBuckets()
    ensures var ts := TWO_TRADES;
            && BucketOf(ts[1], HOUR, 0) == HOUR && Select(ts, HOUR, 0, HOUR) == ts[1..]
            && Earlier(ts, HOUR, 0, HOUR) == ts[..1] && Select(ts, MINUTE, 0, HOUR) == []
  {
    var a, b := TWO_TRADES[0], TWO_TRADES[1];
    assert TWO_TRADES == [a] + [b] && TWO_TRADES[..1] == [a] && TWO_TRADES[1..] == [b];
    assert BucketOf(a, HOUR, 0) == 0 && BucketOf(b, HOUR, 0) == HOUR;
    assert BucketOf(a, MINUTE, 0) == 59 * MINUTE && BucketOf(b, MINUTE, 0) == 61 * MINUTE;
    hide BucketStart, Select, Earlier;
    CutBelow(TWO_TRADES, 1, HOUR, 0, HOUR, HOUR);
    SelectAll([a], HOUR, 0, HOUR);
    EarlierEnds([a], HOUR, 0, HOUR);
    SelectAll(TWO_TRADES, MINUTE, 0, HOUR);
  }

  lemma TwoCandles()
    ensures Fold(TWO_TRADES[1..]) == Candle(200, 200, 200, 200, 1)
    ensures Lead(TWO_TRADES[..1], TWO_TRADES[1..], false) == Candle(100, 200, 100, 200, 1)
  {
  }
}
