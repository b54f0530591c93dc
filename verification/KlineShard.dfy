/** One shard: trades in, bars of four intervals out (internal/quotes/kline/shard.go). */
module KlineShard {
  import opened Basics
  import opened Bytes
  import opened Candles
  import opened Watermark
  import opened Rollup
  import opened TradeAggregator
  import opened Cascade
  import Decimals

  datatype Out = Out(interval: int, bar: Bar)

  function Level(out: seq<Out>, interval: int): seq<Bar>
    decreases |out|
  {
    if out == [] then []
    else Level(out[..|out| - 1], interval) + (if out[|out| - 1].interval == interval then [out[|out| - 1].bar] else [])
  }

  lemma LevelOne(out: seq<Out>, x: Out, interval: int)
    ensures Level(out + [x], interval) == Level(out, interval) + (if x.interval == interval then [x.bar] else [])
  {
    assert (out + [x])[..|out|] == out;
  }

  /** For every symbol the rollup stands where its input so far takes it, and has emitted `upper`. */
  ghost predicate Rolled(cfg: RollConfig, cur: map<string, Bar>, lower: seq<Bar>, upper: seq<Bar>)
    requires cfg.interval > 0
  {
    forall s :: RolledFor(cfg, cur, lower, upper, s)
  }

  ghost predicate RolledFor(cfg: RollConfig, cur: map<string, Bar>, lower: seq<Bar>, upper: seq<Bar>, s: string)
    requires cfg.interval > 0
  {
    (CurOf(cur, s), Of(upper, s)) == RollRun(cfg, Of(lower, s))
  }

  lemma RunOne(cfg: RollConfig, children: seq<Bar>, b: Bar)
    requires cfg.interval > 0
    ensures var (cur, out) := RollRun(cfg, children);
            var (cur', es) := RollOffer(cfg, cur, b);
            RollRun(cfg, children + [b]) == (cur', out + es)
  {
    assert Init(children + [b]) == children;
  }

  lemma RolledStep(cfg: RollConfig, cur: map<string, Bar>, lower: seq<Bar>, upper: seq<Bar>, b: Bar, c: Bar, es: seq<Bar>)
    requires cfg.interval > 0 && Rolled(cfg, cur, lower, upper) && AllOf(es, b.symbol)
    requires RollOffer(cfg, CurOf(cur, b.symbol), b) == (Some(c), es)
    ensures Rolled(cfg, cur[b.symbol := c], lower + [b], upper + es)
  {
    var cur', lower', upper' := cur[b.symbol := c], lower + [b], upper + es;
    forall s
      ensures RolledFor(cfg, cur', lower', upper', s)
    {
      assert RolledFor(cfg, cur, lower, upper, s);
      OneSymbolStep(cfg, cur, lower, upper, b, c, es, s);
    }
  }

  lemma OneSymbolStep(cfg: RollConfig, cur: map<string, Bar>, lower: seq<Bar>, upper: seq<Bar>, b: Bar, c: Bar,
                      es: seq<Bar>, s: string)
    requires cfg.interval > 0 && RolledFor(cfg, cur, lower, upper, s) && AllOf(es, b.symbol)
    requires RollOffer(cfg, CurOf(cur, b.symbol), b) == (Some(c), es)
    ensures RolledFor(cfg, cur[b.symbol := c], lower + [b], upper + es, s)
  {
    hide Of, RollRun, RollOffer, AllOf;
    OfOne(lower, b, s);
    OfAppend(upper, es, s);
    OfAll(es, b.symbol, s);
    RunOne(cfg, Of(lower, s), b);
    assert Of(upper, s) + [] == Of(upper, s) && Of(lower, s) + [] == Of(lower, s);
  }

  lemma NothingRolled(cfg: RollConfig)
    requires cfg.interval > 0
    ensures Rolled(cfg, map[], [], [])
  {
  }

  /** The parsed trades of one symbol. */
  function Ticks(seen: seq<Trade>, s: string): seq<Tick>
    decreases |seen|
  {
    if seen == [] then []
    else
      var t := seen[|seen| - 1];
      Ticks(seen[..|seen| - 1], s) + (if t.symbol == s && Parsed(t).Some? then [Parsed(t).value] else [])
  }

  /** The trades of a symbol that count are those whose price and size read as numbers, with their times. */
  lemma {:induction false} TicksTell(seen: seq<Trade>, s: string)
    ensures |Ticks(seen, s)| <= |seen|
    ensures forall t :: t in Ticks(seen, s) <==> exists u :: u in seen && Told(u, s, t)
    decreases |seen|
  {
    hide Decimals.ParsedFixed;
    if seen != [] {
      var before, u := seen[..|seen| - 1], seen[|seen| - 1];
      TicksTell(before, s);
      assert seen == before + [u];
      forall t
        ensures t in Ticks(seen, s) <==> exists u :: u in seen && Told(u, s, t)
      {
        assert t in Ticks(seen, s) <==> t in Ticks(before, s) || Told(u, s, t);
      }
    }
  }

  ghost predicate Told(u: Trade, s: string, t: Tick) {
    && u.symbol == s && u.ts == t.ts
    && Decimals.ParsedFixed(u.price) == Some(t.price) && Decimals.ParsedFixed(u.size) == Some(t.size)
  }

  ghost predicate Tallied(cfg: Config, sym: map<string, SymState>, seen: seq<Trade>, seconds: seq<Bar>)
    requires cfg.interval > 0
  {
    forall s :: TalliedFor(cfg, sym, seen, seconds, s)
  }

  ghost predicate TalliedFor(cfg: Config, sym: map<string, SymState>, seen: seq<Trade>, seconds: seq<Bar>, s: string)
    requires cfg.interval > 0
  {
    (StateOf(sym, s), Of(seconds, s)) == RunTicks(cfg, s, Ticks(seen, s))
  }

  lemma TicksOne(seen: seq<Trade>, t: Trade, s: string)
    ensures Ticks(seen + [t], s) == Ticks(seen, s) + (if t.symbol == s && Parsed(t).Some? then [Parsed(t).value] else [])
  {
    assert (seen + [t])[..|seen|] == seen;
  }

  lemma RunTick(cfg: Config, s: string, ts: seq<Tick>, t: Tick)
    requires cfg.interval > 0
    ensures var (st, out) := RunTicks(cfg, s, ts);
            var (st', es) := Offered(cfg, s, st, t);
            RunTicks(cfg, s, ts + [t]) == (st', out + es)
  {
    assert Init(ts + [t]) == ts;
    hide Offered;
  }

  lemma TalliedStep(cfg: Config, sym: map<string, SymState>, sym': map<string, SymState>, seen: seq<Trade>,
                    seconds: seq<Bar>, t: Trade, es: seq<Bar>)
    requires cfg.interval > 0 && Tallied(cfg, sym, seen, seconds) && AllOf(es, t.symbol)
    requires match Parsed(t)
             case None => sym' == sym && es == []
             case Some(tick) =>
               var offered := Offered(cfg, t.symbol, StateOf(sym, t.symbol), tick);
               sym' == sym[t.symbol := offered.0] && es == offered.1
    ensures Tallied(cfg, sym', seen + [t], seconds + es)
  {
    hide Of, RunTicks, Offered, Parsed, AllOf, Ticks;
    forall s
      ensures TalliedFor(cfg, sym', seen + [t], seconds + es, s)
    {
      assert TalliedFor(cfg, sym, seen, seconds, s);
      TicksOne(seen, t, s);
      OfAppend(seconds, es, s);
      OfAll(es, t.symbol, s);
      assert Of(seconds, s) + [] == Of(seconds, s) && Ticks(seen, s) + [] == Ticks(seen, s);
      if Parsed(t).Some? {
        RunTick(cfg, s, Ticks(seen, s), Parsed(t).value);
      }
    }
  }

  lemma NothingTallied(cfg: Config)
    requires cfg.interval > 0
    ensures Tallied(cfg, map[], [], [])
  {
  }

  /** Everything the lower bars make of the rollup has come out. */
  ghost predicate Settled(cfg: RollConfig, lower: seq<Bar>, upper: seq<Bar>)
    requires cfg.interval > 0
  {
    forall s :: Of(upper, s) == RollRun(cfg, Of(lower, s)).1
  }

  lemma RolledSettles(cfg: RollConfig, cur: map<string, Bar>, lower: seq<Bar>, upper: seq<Bar>)
    requires cfg.interval > 0 && Rolled(cfg, cur, lower, upper)
    ensures Settled(cfg, lower, upper)
  {
    hide Of, RollRun;
    forall s
      ensures Of(upper, s) == RollRun(cfg, Of(lower, s)).1
    {
      assert RolledFor(cfg, cur, lower, upper, s);
    }
  }

  class Shard {
    const sAgg: TradeAgg
    const mAgg: RollupAgg
    const hAgg: RollupAgg
    const dAgg: RollupAgg
    var out: seq<Out>
    ghost var seen: seq<Trade>

    ghost predicate Wired()
      reads this, sAgg, mAgg, hAgg, dAgg
    {
      && mAgg != hAgg && hAgg != dAgg && mAgg != dAgg
      && sAgg.Valid() && mAgg.Valid() && hAgg.Valid() && dAgg.Valid()
      && sAgg.cfg.interval == SECOND && mAgg.cfg.interval == MINUTE && hAgg.cfg.interval == HOUR && dAgg.cfg.interval == DAY
      && sAgg.cfg.offset == mAgg.cfg.offset == hAgg.cfg.offset == dAgg.cfg.offset
      && Paced()
    }

    /** A bar of this interval may go out next: all longer levels are done with what went out before. */
    ghost predicate Due(before: seq<Out>, interval: int)
      requires mAgg.cfg.interval > 0 && hAgg.cfg.interval > 0 && dAgg.cfg.interval > 0
    {
      && (interval < MINUTE ==> Settled(mAgg.cfg, Level(before, SECOND), Level(before, MINUTE)))
      && (interval < HOUR ==> Settled(hAgg.cfg, Level(before, MINUTE), Level(before, HOUR)))
      && (interval < DAY ==> Settled(dAgg.cfg, Level(before, HOUR), Level(before, DAY)))
    }

    /** Every bar went out after all that the bars before it make of the longer levels, and before anything
        it makes of them itself. */
    ghost predicate Paced()
      reads `out
      requires mAgg.cfg.interval > 0 && hAgg.cfg.interval > 0 && dAgg.cfg.interval > 0
    {
      forall k :: 0 <= k < |out| ==> Due(out[..k], out[k].interval)
    }

    ghost predicate DaysOk()
      reads this, dAgg
      requires dAgg.cfg.interval > 0
    {
      Rolled(dAgg.cfg, dAgg.cur, Level(out, HOUR), Level(out, DAY))
    }

    ghost predicate HoursOk()
      reads this, hAgg
      requires hAgg.cfg.interval > 0
    {
      Rolled(hAgg.cfg, hAgg.cur, Level(out, MINUTE), Level(out, HOUR))
    }

    ghost predicate MinutesOk()
      reads this, mAgg
      requires mAgg.cfg.interval > 0
    {
      Rolled(mAgg.cfg, mAgg.cur, Level(out, SECOND), Level(out, MINUTE))
    }

    ghost predicate SecondsOk()
      reads this, sAgg
      requires sAgg.cfg.interval > 0
    {
      Tallied(sAgg.cfg, sAgg.sym, seen, Level(out, SECOND))
    }

    constructor (offset: int, window: int, fill1m: bool, fill1h: bool, fill1d: bool)
      ensures Wired() && SecondsOk() && MinutesOk() && HoursOk() && DaysOk() && seen == [] && out == []
      ensures sAgg.cfg == Config(SECOND, offset, window)
      ensures mAgg.cfg == RollConfig(MINUTE, offset, fill1m)
      ensures hAgg.cfg == RollConfig(HOUR, offset, fill1h)
      ensures dAgg.cfg == RollConfig(DAY, offset, fill1d)
      ensures fresh(sAgg) && fresh(mAgg) && fresh(hAgg) && fresh(dAgg)
    {
      var d := new RollupAgg(RollConfig(DAY, offset, fill1d));
      var h := new RollupAgg(RollConfig(HOUR, offset, fill1h));
      var m := new RollupAgg(RollConfig(MINUTE, offset, fill1m));
      var s := new TradeAgg(Config(SECOND, offset, window));
      sAgg, mAgg, hAgg, dAgg, out, seen := s, m, h, d, [], [];
      NothingRolled(d.cfg);
      NothingRolled(h.cfg);
      NothingRolled(m.cfg);
      NothingTallied(s.cfg);
    }

    method Send(interval: int, b: Bar)
      requires Wired() && Due(out, interval)
      modifies this`out
      ensures Wired() && out == old(out) + [Out(interval, b)]
      ensures Level(out, interval) == Level(old(out), interval) + [b]
      ensures forall i :: i != interval ==> Level(out, i) == Level(old(out), i)
    {
      hide Level, Due;
      LevelOne(out, Out(interval, b), interval);
      forall i | i != interval
        ensures Level(out + [Out(interval, b)], i) == Level(out, i)
      {
        LevelOne(out, Out(interval, b), i);
      }
      ghost var before := out;
      out := out + [Out(interval, b)];
      assert forall k :: 0 <= k < |before| ==> out[..k] == before[..k];
      assert out[..|before|] == before;
    }

    /** A day bar may go out at any time, a shorter one when the longer levels are up to date. */
    lemma IsDue(interval: int)
      requires Wired() && (interval < MINUTE ==> MinutesOk()) && (interval < HOUR ==> HoursOk())
      requires interval < DAY ==> DaysOk()
      ensures Due(out, interval)
    {
      hide Level, Rolled, Settled, Paced;
      if interval < MINUTE {
        RolledSettles(mAgg.cfg, mAgg.cur, Level(out, SECOND), Level(out, MINUTE));
      }
      if interval < HOUR {
        RolledSettles(hAgg.cfg, hAgg.cur, Level(out, MINUTE), Level(out, HOUR));
      }
      if interval < DAY {
        RolledSettles(dAgg.cfg, dAgg.cur, Level(out, HOUR), Level(out, DAY));
      }
    }

    method EmitDays(bars: seq<Bar>)
      requires Wired()
      modifies this`out
      ensures Wired()
      ensures Level(out, DAY) == Level(old(out), DAY) + bars
      ensures forall i :: i != DAY ==> Level(out, i) == Level(old(out), i)
    {
      hide Level, Paced, Due;
      assert bars[..0] == [];
      for k := 0 to |bars|
        invariant Wired() && Level(out, DAY) == Level(old(out), DAY) + bars[..k]
        invariant forall i :: i != DAY ==> Level(out, i) == Level(old(out), i)
      {
        assert bars[..k + 1] == bars[..k] + [bars[k]];
        IsDue(DAY);
        Send(DAY, bars[k]);
      }
      assert bars[..|bars|] == bars;
    }

    /** An hour bar goes out and into the day. */
    method EmitHour(b: Bar)
      requires Wired() && DaysOk()
      modifies this`out, dAgg
      ensures Wired() && DaysOk()
      ensures Level(out, HOUR) == Level(old(out), HOUR) + [b]
      ensures Level(out, SECOND) == Level(old(out), SECOND) && Level(out, MINUTE) == Level(old(out), MINUTE)
    {
      hide Level, Rolled, RollOffer, AllOf, Paced, Due;
      ghost var hours, days, cur := Level(out, HOUR), Level(out, DAY), dAgg.cur;
      IsDue(HOUR);
      Send(HOUR, b);
      var bars := dAgg.OfferBar(b);
      EmitDays(bars);
      RolledStep(dAgg.cfg, cur, hours, days, b, dAgg.cur[b.symbol], bars);
    }

    method EmitHours(bars: seq<Bar>)
      requires Wired() && DaysOk()
      modifies this`out, dAgg
      ensures Wired() && DaysOk()
      ensures Level(out, HOUR) == Level(old(out), HOUR) + bars
      ensures Level(out, SECOND) == Level(old(out), SECOND) && Level(out, MINUTE) == Level(old(out), MINUTE)
    {
      hide Level, Rolled, Paced;
      assert bars[..0] == [];
      for k := 0 to |bars|
        invariant Wired() && DaysOk() && Level(out, HOUR) == Level(old(out), HOUR) + bars[..k]
        invariant Level(out, SECOND) == Level(old(out), SECOND) && Level(out, MINUTE) == Level(old(out), MINUTE)
      {
        assert bars[..k + 1] == bars[..k] + [bars[k]];
        EmitHour(bars[k]);
      }
      assert bars[..|bars|] == bars;
    }

    /** A minute bar goes out and into the hour. */
    method EmitMinute(b: Bar)
      requires Wired() && HoursOk() && DaysOk()
      modifies this`out, hAgg, dAgg
      ensures Wired() && HoursOk() && DaysOk()
      ensures Level(out, MINUTE) == Level(old(out), MINUTE) + [b] && Level(out, SECOND) == Level(old(out), SECOND)
    {
      hide Level, Rolled, RollOffer, AllOf, Paced, Due;
      ghost var minutes, hours, cur := Level(out, MINUTE), Level(out, HOUR), hAgg.cur;
      IsDue(MINUTE);
      Send(MINUTE, b);
      var bars := hAgg.OfferBar(b);
      EmitHours(bars);
      RolledStep(hAgg.cfg, cur, minutes, hours, b, hAgg.cur[b.symbol], bars);
    }

    method EmitMinutes(bars: seq<Bar>)
      requires Wired() && HoursOk() && DaysOk()
      modifies this`out, hAgg, dAgg
      ensures Wired() && HoursOk() && DaysOk()
      ensures Level(out, MINUTE) == Level(old(out), MINUTE) + bars && Level(out, SECOND) == Level(old(out), SECOND)
    {
      hide Level, Rolled, Paced;
      assert bars[..0] == [];
      for k := 0 to |bars|
        invariant Wired() && HoursOk() && DaysOk()
        invariant Level(out, MINUTE) == Level(old(out), MINUTE) + bars[..k] && Level(out, SECOND) == Level(old(out), SECOND)
      {
        assert bars[..k + 1] == bars[..k] + [bars[k]];
        EmitMinute(bars[k]);
      }
      assert bars[..|bars|] == bars;
    }

    /** A second bar goes out and into the minute. */
    method EmitSecond(b: Bar)
      requires Wired() && MinutesOk() && HoursOk() && DaysOk()
      modifies this`out, mAgg, hAgg, dAgg
      ensures Wired() && MinutesOk() && HoursOk() && DaysOk()
      ensures Level(out, SECOND) == Level(old(out), SECOND) + [b]
    {
      hide Level, Rolled, RollOffer, AllOf, Paced, Due;
      ghost var seconds, minutes, cur := Level(out, SECOND), Level(out, MINUTE), mAgg.cur;
      IsDue(SECOND);
      Send(SECOND, b);
      var bars := mAgg.OfferBar(b);
      EmitMinutes(bars);
      RolledStep(mAgg.cfg, cur, seconds, minutes, b, mAgg.cur[b.symbol], bars);
    }

    method EmitSeconds(bars: seq<Bar>)
      requires Wired() && MinutesOk() && HoursOk() && DaysOk()
      modifies this`out, mAgg, hAgg, dAgg
      ensures Wired() && MinutesOk() && HoursOk() && DaysOk()
      ensures Level(out, SECOND) == Level(old(out), SECOND) + bars
    {
      hide Level, Rolled, Paced;
      assert bars[..0] == [];
      for k := 0 to |bars|
        invariant Wired() && MinutesOk() && HoursOk() && DaysOk()
        invariant Level(out, SECOND) == Level(old(out), SECOND) + bars[..k]
      {
        assert bars[..k + 1] == bars[..k] + [bars[k]];
        EmitSecond(bars[k]);
      }
      assert bars[..|bars|] == bars;
    }

    method OfferTrade(t: Trade)
      requires Wired() && SecondsOk() && MinutesOk() && HoursOk() && DaysOk()
      modifies this, sAgg, mAgg, hAgg, dAgg
      ensures Wired() && SecondsOk() && MinutesOk() && HoursOk() && DaysOk() && seen == old(seen) + [t]
    {
      hide Level, Rolled, Tallied, Offered, Parsed, AllOf, Paced;
      ghost var seconds, sym := Level(out, SECOND), sAgg.sym;
      var bars := sAgg.OfferTrade(t);
      seen := seen + [t];
      TalliedStep(sAgg.cfg, sym, sAgg.sym, old(seen), seconds, t, bars);
      EmitSeconds(bars);
    }

    /** On shutdown the levels are flushed in order, each into the next before that one is flushed. */
    method Flush()
      requires Wired() && SecondsOk() && MinutesOk() && HoursOk() && DaysOk()
      modifies this`out, sAgg, mAgg, hAgg, dAgg
      ensures Wired()
      ensures forall s :: Of(Level(out, SECOND), s) == Closed(sAgg.cfg, s, Ticks(seen, s))
      ensures forall s :: Of(Level(out, MINUTE), s) == RollClosed(mAgg.cfg, Of(Level(out, SECOND), s))
      ensures forall s :: Of(Level(out, HOUR), s) == RollClosed(hAgg.cfg, Of(Level(out, MINUTE), s))
      ensures forall s :: Of(Level(out, DAY), s) == RollClosed(dAgg.cfg, Of(Level(out, HOUR), s))
    {
      hide Level, Rolled, Tallied, Of, Tail, Flushed, Paced, Closed, RollClosed, Ticks;
      ghost var seconds, sym := Level(out, SECOND), sAgg.sym;
      var bars := sAgg.Flush();
      SecondsClose(sAgg.cfg, sym, seen, seconds, bars);
      EmitSeconds(bars);
      bars := mAgg.Flush();
      LevelCloses(mAgg.cfg, mAgg.cur, Level(out, SECOND), Level(out, MINUTE), bars);
      EmitMinutes(bars);
      bars := hAgg.Flush();
      LevelCloses(hAgg.cfg, hAgg.cur, Level(out, MINUTE), Level(out, HOUR), bars);
      EmitHours(bars);
      bars := dAgg.Flush();
      LevelCloses(dAgg.cfg, dAgg.cur, Level(out, HOUR), Level(out, DAY), bars);
      EmitDays(bars);
    }
  }

  lemma SecondsClose(cfg: Config, sym: map<string, SymState>, seen: seq<Trade>, seconds: seq<Bar>, bars: seq<Bar>)
    requires cfg.interval > 0 && Tallied(cfg, sym, seen, seconds)
    requires forall s :: Of(bars, s) == Flushed(StateOf(sym, s)).1
    ensures forall s :: Of(seconds + bars, s) == Closed(cfg, s, Ticks(seen, s))
  {
    hide Of, RunTicks, Flushed, Ticks;
    forall s
      ensures Of(seconds + bars, s) == Closed(cfg, s, Ticks(seen, s))
    {
      assert TalliedFor(cfg, sym, seen, seconds, s);
      OfAppend(seconds, bars, s);
    }
  }

  lemma LevelCloses(cfg: RollConfig, cur: map<string, Bar>, lower: seq<Bar>, upper: seq<Bar>, bars: seq<Bar>)
    requires cfg.interval > 0 && Rolled(cfg, cur, lower, upper)
    requires forall s :: Of(bars, s) == Tail(CurOf(cur, s))
    ensures forall s :: Of(upper + bars, s) == RollClosed(cfg, Of(lower, s))
  {
    hide Of, RollRun, Tail;
    forall s
      ensures Of(upper + bars, s) == RollClosed(cfg, Of(lower, s))
    {
      assert RolledFor(cfg, cur, lower, upper, s);
      OfAppend(upper, bars, s);
    }
  }

  /** What a shard has put out for one symbol. */
  ghost function LevelsOut(out: seq<Out>, s: string): Levels {
    Levels(Of(Level(out, SECOND), s), Of(Level(out, MINUTE), s), Of(Level(out, HOUR), s), Of(Level(out, DAY), s))
  }

  /** Any interleaving of any symbols' trades, then the shutdown flush: each symbol's bars are the
      chain over its own trades alone; and each bar goes out before the longer ones it closes, and after all
      those that earlier bars closed. */
  method Session(trades: seq<Trade>, c: Chain) returns (shard: Shard)
    ensures forall s :: LevelsOut(shard.out, s) == Chained(c, s, Ticks(trades, s))
    ensures shard.Wired() && shard.Paced()
  {
    hide Level, Rolled, Tallied, Of, Closed, RollClosed, Ticks, Shard.Paced;
    shard := new Shard(c.offset, c.window, c.fill1m, c.fill1h, c.fill1d);
    assert trades[..0] == [];
    for i := 0 to |trades|
      invariant fresh(shard) && fresh(shard.sAgg) && fresh(shard.mAgg) && fresh(shard.hAgg) && fresh(shard.dAgg)
      invariant shard.Wired() && shard.SecondsOk() && shard.MinutesOk() && shard.HoursOk() && shard.DaysOk()
      invariant shard.seen == trades[..i]
    {
      assert trades[..i + 1] == trades[..i] + [trades[i]];
      shard.OfferTrade(trades[i]);
    }
    assert trades[..|trades|] == trades;
    shard.Flush();
  }
}
