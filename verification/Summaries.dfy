/** Bars that summarise trades, and rolling summaries up (internal/quotes/kline/agg.go). */
module Summaries {
  import opened Basics
  import opened Bytes
  import opened Candles
  import opened Watermark
  import opened Rollup

  // ---- stable order by bucket --------------------------------------------------------------------

  function BucketOf(t: Tick, i: int, off: int): int
    requires i > 0
  {
    BucketStart(t.ts, i, off)
  }

  /** After every trade of the same or an earlier bucket. */
  function InsertStable(ts: seq<Tick>, t: Tick, i: int, off: int): seq<Tick>
    requires i > 0
    decreases |ts|
  {
    if ts == [] || BucketOf(Last(ts), i, off) <= BucketOf(t, i, off) then ts + [t]
    else InsertStable(Init(ts), t, i, off) + [Last(ts)]
  }

  function StableSorted(ts: seq<Tick>, i: int, off: int): seq<Tick>
    requires i > 0
    decreases |ts|
  {
    if ts == [] then [] else InsertStable(StableSorted(Init(ts), i, off), Last(ts), i, off)
  }

  ghost predicate BucketSorted(ts: seq<Tick>, i: int, off: int)
    requires i > 0
  {
    forall j, k :: 0 <= j < k < |ts| ==> BucketOf(ts[j], i, off) <= BucketOf(ts[k], i, off)
  }

  lemma SelectLast(ts: seq<Tick>, i: int, off: int, b: int)
    requires i > 0 && ts != []
    ensures Select(ts, i, off, b) ==
            Select(Init(ts), i, off, b) + (if BucketOf(Last(ts), i, off) == b then [Last(ts)] else [])
  {
  }

  lemma SelectOne(ts: seq<Tick>, t: Tick, i: int, off: int, b: int)
    requires i > 0
    ensures Select(ts + [t], i, off, b) == Select(ts, i, off, b) + (if BucketOf(t, i, off) == b then [t] else [])
  {
    SelectLast(ts + [t], i, off, b);
    assert Init(ts + [t]) == ts;
  }

  ghost predicate SameSelects(a: seq<Tick>, b: seq<Tick>, i: int, off: int)
    requires i > 0
  {
    forall x :: Select(a, i, off, x) == Select(b, i, off, x)
  }

  lemma {:induction false} InsertStableIs(ts: seq<Tick>, t: Tick, i: int, off: int)
    requires i > 0 && BucketSorted(ts, i, off)
    ensures var r := InsertStable(ts, t, i, off);
            && BucketSorted(r, i, off) && SameSelects(r, ts + [t], i, off)
            && (forall u :: u in r <==> u in ts || u == t)
            && Total(r) == Plus(Total(ts), t.size)
    decreases |ts|
  {
    if ts == [] || BucketOf(Last(ts), i, off) <= BucketOf(t, i, off) {
      assert (ts + [t])[..|ts|] == ts;
    } else {
      var r := InsertStable(Init(ts), t, i, off);
      hide BucketStart, Select, Plus, SameSelects;
      InsertStableIs(Init(ts), t, i, off);
      assert ts == Init(ts) + [Last(ts)];
      InsertKeepsOrder(ts, t, i, off, r);
      InsertKeepsSelects(ts, t, i, off, r);
      assert (r + [Last(ts)])[..|r|] == r;
      PlusSwap(Total(Init(ts)), t.size, Last(ts).size);
    }
  }

  lemma InsertKeepsOrder(ts: seq<Tick>, t: Tick, i: int, off: int, r: seq<Tick>)
    requires i > 0 && ts != [] && BucketSorted(ts, i, off) && BucketSorted(r, i, off)
    requires BucketOf(Last(ts), i, off) > BucketOf(t, i, off)
    requires forall u :: u in r <==> u in Init(ts) || u == t
    ensures BucketSorted(r + [Last(ts)], i, off)
  {
    hide BucketStart;
    forall j | 0 <= j < |r|
      ensures BucketOf(r[j], i, off) <= BucketOf(Last(ts), i, off)
    {
      assert r[j] in r;
      if r[j] in Init(ts) {
        var k :| 0 <= k < |Init(ts)| && Init(ts)[k] == r[j];
        assert ts[k] == r[j];
      }
    }
  }

  lemma InsertKeepsSelects(ts: seq<Tick>, t: Tick, i: int, off: int, r: seq<Tick>)
    requires i > 0 && ts != [] && SameSelects(r, Init(ts) + [t], i, off)
    requires BucketOf(Last(ts), i, off) != BucketOf(t, i, off)
    ensures SameSelects(r + [Last(ts)], ts + [t], i, off)
  {
    hide BucketStart, Select;
    forall b
      ensures Select(r + [Last(ts)], i, off, b) == Select(ts + [t], i, off, b)
    {
      SelectOne(r, Last(ts), i, off, b);
      SelectOne(Init(ts), t, i, off, b);
      SelectOne(ts, t, i, off, b);
      SelectLast(ts, i, off, b);
      assert Select(r, i, off, b) == Select(Init(ts) + [t], i, off, b);
    }
  }

  lemma PlusSwap(a: i64, b: i64, c: i64)
    ensures Plus(Plus(a, b), c) == Plus(Plus(a, c), b)
  {
    PlusAssociative(a, b, c);
    PlusAssociative(a, c, b);
    assert Plus(b, c) == Plus(c, b);
    hide Plus;
  }

  /** The stable order: buckets ascend, inside a bucket the arrival order stays, and no size is lost. */
  lemma {:induction false} StableSortedIs(ts: seq<Tick>, i: int, off: int)
    requires i > 0
    ensures var r := StableSorted(ts, i, off);
            BucketSorted(r, i, off) && SameSelects(r, ts, i, off) && Total(r) == Total(ts)
    decreases |ts|
  {
    if ts != [] {
      var r := StableSorted(Init(ts), i, off);
      TotalLast(ts);
      hide BucketStart, Select, Plus, InsertStable, SameSelects, Total, BucketSorted;
      StableSortedIs(Init(ts), i, off);
      InsertStableIs(r, Last(ts), i, off);
      SelectsGrow(r, StableSorted(ts, i, off), ts, i, off);
    } else {
      assert SameSelects(ts, ts, i, off);
    }
  }

  lemma TotalLast(ts: seq<Tick>)
    requires ts != []
    ensures Total(ts) == Plus(Total(Init(ts)), Last(ts).size)
  {
  }

  lemma SelectsGrow(r: seq<Tick>, r': seq<Tick>, ts: seq<Tick>, i: int, off: int)
    requires i > 0 && ts != [] && SameSelects(r, Init(ts), i, off) && SameSelects(r', r + [Last(ts)], i, off)
    ensures SameSelects(r', ts, i, off)
  {
    hide BucketStart, Select;
    forall b
      ensures Select(r', i, off, b) == Select(ts, i, off, b)
    {
      SelectOne(r, Last(ts), i, off, b);
      SelectLast(ts, i, off, b);
      assert Select(r, i, off, b) == Select(Init(ts), i, off, b);
    }
  }

  // ---- bars that summarise trades ----------------------------------------------------------------

  ghost predicate Folds(bars: seq<Bar>, ts: seq<Tick>, i: int, off: int)
    requires i > 0
  {
    forall k :: 0 <= k < |bars| ==>
      Select(ts, i, off, bars[k].start) != [] && bars[k].candle == Fold(Select(ts, i, off, bars[k].start))
  }

  ghost predicate HasBar(bars: seq<Bar>, b: int) {
    exists k :: 0 <= k < |bars| && bars[k].start == b
  }

  ghost predicate Complete(bars: seq<Bar>, ts: seq<Tick>, i: int, off: int)
    requires i > 0
  {
    forall t :: t in ts ==> HasBar(bars, BucketOf(t, i, off))
  }

  /** Direct aggregation: in increasing order, one bar for each bucket with trades, and its open,
      high, low, close and volume are the fold of the bucket's trades in their order. */
  ghost predicate Summarises(bars: seq<Bar>, ts: seq<Tick>, i: int, off: int)
    requires i > 0
  {
    Rising(bars) && Folds(bars, ts, i, off) && Complete(bars, ts, i, off)
  }

  lemma SameMembers(a: seq<Tick>, b: seq<Tick>, i: int, off: int)
    requires i > 0 && SameSelects(a, b, i, off)
    ensures forall t :: t in a ==> t in b
  {
    hide BucketStart, Select;
    forall t | t in a
      ensures t in b
    {
      SelectMembers(a, i, off, BucketOf(t, i, off));
      SelectMembers(b, i, off, BucketOf(t, i, off));
      assert Select(a, i, off, BucketOf(t, i, off)) == Select(b, i, off, BucketOf(t, i, off));
    }
  }

  lemma ExactSummarises(cfg: Config, sym: string, bars: seq<Bar>, ts: seq<Tick>)
    requires cfg.interval > 0 && Exact(cfg, sym, bars, ts)
    ensures Summarises(bars, StableSorted(ts, cfg.interval, cfg.offset), cfg.interval, cfg.offset)
  {
    var r := StableSorted(ts, cfg.interval, cfg.offset);
    StableSortedIs(ts, cfg.interval, cfg.offset);
    SameMembers(r, ts, cfg.interval, cfg.offset);
    hide BucketStart, Select, Fold, StableSorted, Rising;
    forall t | t in r
      ensures HasBar(bars, BucketOf(t, cfg.interval, cfg.offset))
    {
      assert t in ts;
    }
  }

  ghost predicate AllBelow(ts: seq<Tick>, i: int, off: int, b: int)
    requires i > 0
  {
    forall k :: 0 <= k < |ts| ==> BucketOf(ts[k], i, off) < b
  }

  /** The trades of the last bucket stand at the end. */
  lemma {:induction false} CutLast(ts: seq<Tick>, i: int, off: int, b: int) returns (m: nat)
    requires i > 0 && BucketSorted(ts, i, off)
    requires forall k :: 0 <= k < |ts| ==> BucketOf(ts[k], i, off) <= b
    ensures m <= |ts| && ts[m..] == Select(ts, i, off, b) && AllBelow(ts[..m], i, off, b)
    decreases |ts|
  {
    hide BucketStart, Select, AllBelow;
    if ts == [] {
      NoneBelow(ts, i, off, b);
      m := 0;
    } else if BucketOf(Last(ts), i, off) < b {
      NoneOfLast(ts, i, off, b);
      m := |ts|;
      assert ts[..m] == ts;
    } else {
      m := CutLast(Init(ts), i, off, b);
      SelectLast(ts, i, off, b);
      assert ts[m..] == Init(ts)[m..] + [Last(ts)];
      assert ts[..m] == Init(ts)[..m];
    }
  }

  lemma NoneBelow(ts: seq<Tick>, i: int, off: int, b: int)
    requires i > 0 && ts == []
    ensures Select(ts, i, off, b) == [] && AllBelow(ts[..0], i, off, b)
  {
  }

  lemma NoneOfLast(ts: seq<Tick>, i: int, off: int, b: int)
    requires i > 0 && ts != [] && BucketSorted(ts, i, off) && BucketOf(Last(ts), i, off) < b
    ensures Select(ts, i, off, b) == [] && AllBelow(ts, i, off, b)
  {
    SelectAll(ts, i, off, b);
    hide BucketStart, Select;
    forall k | 0 <= k < |ts|
      ensures BucketOf(ts[k], i, off) < b
    {
      assert BucketOf(ts[k], i, off) <= BucketOf(Last(ts), i, off);
    }
  }

  /** Without its last bar, a summary summarises the trades before that bar's bucket. */
  lemma SummaryInit(bars: seq<Bar>, ts: seq<Tick>, i: int, off: int) returns (m: nat)
    requires i > 0 && bars != [] && Summarises(bars, ts, i, off) && BucketSorted(ts, i, off)
    ensures m < |ts| && Summarises(Init(bars), ts[..m], i, off) && BucketSorted(ts[..m], i, off)
    ensures Last(bars).candle == Fold(ts[m..])
    ensures forall t :: t in ts[m..] ==> BucketOf(t, i, off) == Last(bars).start
    ensures forall t :: t in ts[..m] ==> BucketOf(t, i, off) < Last(bars).start
  {
    hide BucketStart, Select, Fold;
    var b := Last(bars).start;
    LastBucket(bars, ts, i, off);
    m := CutLast(ts, i, off, b);
    SelectMembers(ts, i, off, b);
    CompleteInit(bars, ts, i, off, m);
    FoldsInit(bars, ts, i, off, m);
  }

  lemma FoldsInit(bars: seq<Bar>, ts: seq<Tick>, i: int, off: int, m: nat)
    requires i > 0 && bars != [] && Rising(bars) && Folds(bars, ts, i, off) && m <= |ts|
    requires forall t :: t in ts[m..] ==> BucketOf(t, i, off) == Last(bars).start
    ensures Folds(Init(bars), ts[..m], i, off)
  {
    hide BucketStart, Select, Fold;
    forall k | 0 <= k < |Init(bars)|
      ensures Select(ts[..m], i, off, bars[k].start) == Select(ts, i, off, bars[k].start)
    {
      assert ts == ts[..m] + ts[m..];
      SelectAppend(ts[..m], ts[m..], i, off, bars[k].start);
      SelectAll(ts[m..], i, off, bars[k].start);
    }
  }

  lemma LastBucket(bars: seq<Bar>, ts: seq<Tick>, i: int, off: int)
    requires i > 0 && bars != [] && Summarises(bars, ts, i, off)
    ensures forall t :: t in ts ==> BucketOf(t, i, off) <= Last(bars).start
  {
    hide BucketStart, Select, Fold;
    forall t | t in ts
      ensures BucketOf(t, i, off) <= Last(bars).start
    {
      assert HasBar(bars, BucketOf(t, i, off));
    }
  }

  lemma CompleteInit(bars: seq<Bar>, ts: seq<Tick>, i: int, off: int, m: nat)
    requires i > 0 && bars != [] && Complete(bars, ts, i, off) && m <= |ts|
    requires forall k :: 0 <= k < m ==> BucketOf(ts[k], i, off) < Last(bars).start
    ensures Complete(Init(bars), ts[..m], i, off)
  {
    hide BucketStart;
    forall t | t in ts[..m]
      ensures HasBar(Init(bars), BucketOf(t, i, off))
    {
      var k :| 0 <= k < m && ts[k] == t;
      assert t in ts;
      var j :| 0 <= j < |bars| && bars[j].start == BucketOf(t, i, off);
      assert Init(bars)[j].start == BucketOf(t, i, off);
    }
  }

  // ---- rolling a summary up ------------------------------------------------------------------------

  /** The fillers between a closed bar and the bucket of the next child. */
  function Gap(cfg: RollConfig, closed: Bar, child: Bar): seq<Bar>
    requires cfg.interval > 0
  {
    if cfg.fill then
      Fillers(cfg, child.symbol, closed.candle.close, closed.start + cfg.interval,
              BucketStart(child.start, cfg.interval, cfg.offset))
    else []
  }

  function Merged(bar: Bar, child: Bar): Bar {
    bar.(candle := Join(bar.candle, child.candle), count := bar.count + 1)
  }

  /** The flushed output of a rollup after one more child. */
  lemma RollGrows(cfg: RollConfig, children: seq<Bar>)
    requires cfg.interval > 0 && Rising(children) && children != []
    ensures var child := Last(children);
            var bs := BucketStart(child.start, cfg.interval, cfg.offset);
            var before, after := RollClosed(cfg, Init(children)), RollClosed(cfg, children);
            if Init(children) == [] then before == [] && after == [Opened(cfg, child, bs)]
            else
              && before != [] && Last(before).start == BucketStart(Last(Init(children)).start, cfg.interval, cfg.offset)
              && Last(before).start <= bs && Last(before).count > 0
              && after == if bs > Last(before).start
                          then before + Gap(cfg, Last(before), child) + [Opened(cfg, child, bs)]
                          else Init(before) + [Merged(Last(before), child)]
  {
    RollClosedStep(cfg, children);
    NeverOlder(cfg, children);
    var (cur, out) := RollRun(cfg, Init(children));
    hide BucketStart, Join, RollOffer, Fillers, Gap;
    if Init(children) != [] {
      CurIsLastBucket(cfg, Init(children));
      hide RollRun;
      BarGrows(cfg, out, cur.value, Last(children));
    } else {
      FirstBar(cfg, Last(children));
    }
  }

  lemma FirstBar(cfg: RollConfig, child: Bar)
    requires cfg.interval > 0
    ensures RollOffer(cfg, None, child) == (Some(Opened(cfg, child, BucketStart(child.start, cfg.interval, cfg.offset))), [])
  {
  }

  lemma BarGrows(cfg: RollConfig, out: seq<Bar>, cb: Bar, child: Bar)
    requires cfg.interval > 0 && cb.count > 0 && cb.start <= BucketStart(child.start, cfg.interval, cfg.offset)
    ensures var bs := BucketStart(child.start, cfg.interval, cfg.offset);
            var (cur, es) := RollOffer(cfg, Some(cb), child);
            out + es + Tail(cur) == if bs > cb.start then out + [cb] + Gap(cfg, cb, child) + [Opened(cfg, child, bs)]
                                    else Init(out + [cb]) + [Merged(cb, child)]
  {
    hide BucketStart, Join, Fillers;
    assert Init(out + [cb]) == out;
    assert out + [] == out;
    assert out + ([cb] + Gap(cfg, cb, child)) == out + [cb] + Gap(cfg, cb, child);
  }

  lemma SelectGrows(ts: seq<Tick>, m: nat, i: int, off: int, bs: int)
    requires i > 0 && m < |ts| && forall t :: t in ts[m..] ==> BucketOf(t, i, off) == bs
    ensures Select(ts, i, off, bs) == Select(ts[..m], i, off, bs) + ts[m..]
    ensures forall b :: b != bs ==> Select(ts, i, off, b) == Select(ts[..m], i, off, b)
  {
    assert ts == ts[..m] + ts[m..];
    SelectAppend(ts[..m], ts[m..], i, off, bs);
    SelectAll(ts[m..], i, off, bs);
    forall b | b != bs
      ensures Select(ts, i, off, b) == Select(ts[..m], i, off, b)
    {
      SelectAppend(ts[..m], ts[m..], i, off, b);
      SelectAll(ts[m..], i, off, b);
    }
  }

  /** A new bar for trades in a bucket above all others. */
  lemma OpenSummary(bars: seq<Bar>, ts: seq<Tick>, m: nat, i: int, off: int, next: Bar)
    requires i > 0 && m < |ts| && Summarises(bars, ts[..m], i, off)
    requires forall t :: t in ts[m..] ==> BucketOf(t, i, off) == next.start
    requires bars != [] ==> Last(bars).start < next.start
    requires next.candle == Fold(ts[m..])
    ensures Summarises(bars + [next], ts, i, off)
  {
    hide BucketStart, Select, Fold, Rising;
    var all, bs := bars + [next], next.start;
    NoneYet(bars, ts[..m], i, off, bs);
    MoreBars(bars, next);
    CompleteMore(bars, all, ts, m, i, off, bs);
    OpenFolds(bars, ts, m, i, off, next);
  }

  lemma MoreBars(bars: seq<Bar>, next: Bar)
    requires Rising(bars) && (bars != [] ==> Last(bars).start < next.start)
    ensures Rising(bars + [next]) && HasBar(bars + [next], next.start)
    ensures forall b :: HasBar(bars, b) ==> HasBar(bars + [next], b)
  {
    var all := bars + [next];
    assert all[|bars|].start == next.start;
    forall b | HasBar(bars, b)
      ensures HasBar(all, b)
    {
      var k :| 0 <= k < |bars| && bars[k].start == b;
      assert all[k].start == b;
    }
  }

  lemma OpenFolds(bars: seq<Bar>, ts: seq<Tick>, m: nat, i: int, off: int, next: Bar)
    requires i > 0 && m < |ts| && Rising(bars) && Folds(bars, ts[..m], i, off)
    requires forall t :: t in ts[m..] ==> BucketOf(t, i, off) == next.start
    requires bars != [] ==> Last(bars).start < next.start
    requires next.candle == Fold(ts[m..]) && Select(ts[..m], i, off, next.start) == []
    ensures Folds(bars + [next], ts, i, off)
  {
    hide BucketStart, Select, Fold;
    SelectGrows(ts, m, i, off, next.start);
    assert [] + ts[m..] == ts[m..];
    assert forall k :: 0 <= k < |bars| ==> bars[k].start <= Last(bars).start;
  }

  lemma NoneYet(bars: seq<Bar>, ts: seq<Tick>, i: int, off: int, bs: int)
    requires i > 0 && Rising(bars) && Complete(bars, ts, i, off) && (bars != [] ==> Last(bars).start < bs)
    ensures Select(ts, i, off, bs) == []
  {
    forall t | t in ts
      ensures BucketOf(t, i, off) != bs
    {
      assert HasBar(bars, BucketOf(t, i, off));
    }
    SelectAll(ts, i, off, bs);
    hide BucketStart, Select;
  }

  lemma CompleteMore(bars: seq<Bar>, all: seq<Bar>, ts: seq<Tick>, m: nat, i: int, off: int, bs: int)
    requires i > 0 && m <= |ts| && Complete(bars, ts[..m], i, off)
    requires forall t :: t in ts[m..] ==> BucketOf(t, i, off) == bs
    requires forall b :: HasBar(bars, b) ==> HasBar(all, b)
    requires HasBar(all, bs)
    ensures Complete(all, ts, i, off)
  {
    hide BucketStart;
    assert ts == ts[..m] + ts[m..];
  }

  /** More trades for the bucket of the last bar. */
  lemma MergeSummary(bars: seq<Bar>, ts: seq<Tick>, m: nat, i: int, off: int, next: Bar)
    requires i > 0 && bars != [] && m < |ts| && Summarises(bars, ts[..m], i, off)
    requires forall t :: t in ts[m..] ==> BucketOf(t, i, off) == next.start
    requires next.start == Last(bars).start && next.candle == Join(Last(bars).candle, Fold(ts[m..]))
    ensures Summarises(Init(bars) + [next], ts, i, off)
  {
    hide BucketStart, Select, Fold, Rising, Join;
    ReplacedLast(bars, next);
    CompleteMore(bars, Init(bars) + [next], ts, m, i, off, next.start);
    MergeFolds(bars, ts, m, i, off, next);
  }

  lemma ReplacedLast(bars: seq<Bar>, next: Bar)
    requires bars != [] && Rising(bars) && next.start == Last(bars).start
    ensures Rising(Init(bars) + [next]) && HasBar(Init(bars) + [next], next.start)
    ensures forall b :: HasBar(bars, b) ==> HasBar(Init(bars) + [next], b)
  {
    var all := Init(bars) + [next];
    assert forall k :: 0 <= k < |bars| ==> all[k].start == bars[k].start;
    assert all[|bars| - 1].start == next.start;
    forall b | HasBar(bars, b)
      ensures HasBar(all, b)
    {
      var k :| 0 <= k < |bars| && bars[k].start == b;
      assert all[k].start == b;
    }
  }

  lemma MergeFolds(bars: seq<Bar>, ts: seq<Tick>, m: nat, i: int, off: int, next: Bar)
    requires i > 0 && bars != [] && m < |ts| && Rising(bars) && Folds(bars, ts[..m], i, off)
    requires forall t :: t in ts[m..] ==> BucketOf(t, i, off) == next.start
    requires next.start == Last(bars).start && next.candle == Join(Last(bars).candle, Fold(ts[m..]))
    ensures Folds(Init(bars) + [next], ts, i, off)
  {
    hide BucketStart, Select, Fold, Join;
    SelectGrows(ts, m, i, off, next.start);
    FoldAppend(Select(ts[..m], i, off, next.start), ts[m..]);
    assert forall k :: 0 <= k < |bars| - 1 ==> bars[k].start < Last(bars).start;
  }

  /** A summary by i, rolled up to n * i without filling, is the summary by n * i. */
  lemma {:induction false} RollSummarises(cfg: RollConfig, children: seq<Bar>, ts: seq<Tick>, i: int, n: int)
    requires i > 0 && n > 0 && cfg.interval == n * i > 0 && !cfg.fill
    requires Summarises(children, ts, i, cfg.offset) && BucketSorted(ts, i, cfg.offset)
    ensures Summarises(RollClosed(cfg, children), ts, cfg.interval, cfg.offset)
    decreases |children|
  {
    hide BucketStart, Select, Fold, Join, RollClosed, Summarises, BucketSorted;
    if children == [] {
      NoTrades(cfg, ts, i);
    } else {
      var m := SummaryInit(children, ts, i, cfg.offset);
      RollSummarises(cfg, Init(children), ts[..m], i, n);
      LastSummarised(children, ts, i, cfg.offset);
      var child := Last(children);
      var bs := BucketStart(child.start, cfg.interval, cfg.offset);
      NestedBuckets(ts[m..], child.start, i, n, cfg.offset);
      RollGrows(cfg, children);
      var before := RollClosed(cfg, Init(children));
      assert before + [] == before;
      if before == [] || bs > Last(before).start {
        OpenSummary(before, ts, m, cfg.interval, cfg.offset, Opened(cfg, child, bs));
        assert [] + [Opened(cfg, child, bs)] == [Opened(cfg, child, bs)];
      } else {
        MergeSummary(before, ts, m, cfg.interval, cfg.offset, Last(RollClosed(cfg, children)));
      }
    }
  }

  lemma NoTrades(cfg: RollConfig, ts: seq<Tick>, i: int)
    requires i > 0 && cfg.interval > 0 && Summarises([], ts, i, cfg.offset)
    ensures Summarises(RollClosed(cfg, []), ts, cfg.interval, cfg.offset)
  {
    hide BucketStart;
    NonEmptyHas(ts);
  }

  lemma NonEmptyHas(ts: seq<Tick>)
    ensures ts != [] ==> exists t :: t in ts
  {
    if ts != [] {
      assert ts[0] in ts;
    }
  }

  lemma LastSummarised(children: seq<Bar>, ts: seq<Tick>, i: int, off: int)
    requires i > 0 && Summarises(children, ts, i, off)
    ensures Rising(children)
  {
  }

  lemma NestedBuckets(ts: seq<Tick>, start: int, i: int, n: int, off: int)
    requires i > 0 && n > 0 && n * i > 0 && ts != []
    requires forall t :: t in ts ==> BucketOf(t, i, off) == start
    ensures forall t :: t in ts ==> BucketOf(t, n * i, off) == BucketStart(start, n * i, off)
  {
    forall t | t in ts
      ensures BucketOf(t, n * i, off) == BucketStart(start, n * i, off)
    {
      BucketsNest(t.ts, i, n, off);
    }
  }

  lemma SortedNests(ts: seq<Tick>, i: int, n: int, off: int)
    requires i > 0 && n > 0 && n * i > 0 && BucketSorted(ts, i, off)
    ensures BucketSorted(ts, n * i, off)
  {
    forall j, k | 0 <= j < k < |ts|
      ensures BucketOf(ts[j], n * i, off) <= BucketOf(ts[k], n * i, off)
    {
      BucketsNest(ts[j].ts, i, n, off);
      BucketsNest(ts[k].ts, i, n, off);
      BucketMonotone(BucketOf(ts[j], i, off), BucketOf(ts[k], i, off), n * i, off);
    }
  }

  // ---- the volume of a summary -------------------------------------------------------------------

  lemma {:induction false} TotalAppend(a: seq<Tick>, b: seq<Tick>)
    ensures Total(a + b) == Plus(Total(a), Total(b))
    decreases |b|
  {
    hide Plus;
    if b == [] {
      assert a + b == a;
      PlusZero(Total(a));
    } else {
      TotalAppend(a, Init(b));
      assert Init(a + b) == a + Init(b);
      PlusAssociative(Total(a), Total(Init(b)), Last(b).size);
    }
  }

  lemma NothingSummarised(ts: seq<Tick>, i: int, off: int)
    requires i > 0 && Summarises([], ts, i, off)
    ensures ts == []
  {
    hide BucketStart;
    NonEmptyHas(ts);
  }

  lemma {:induction false} SummaryVolume(bars: seq<Bar>, ts: seq<Tick>, i: int, off: int)
    requires i > 0 && Summarises(bars, ts, i, off) && BucketSorted(ts, i, off)
    ensures Volume(bars) == Total(ts)
    decreases |bars|
  {
    hide BucketStart, Select, Fold, Summarises, BucketSorted, Plus, Total, Volume;
    if bars == [] {
      NothingSummarised(ts, i, off);
      NothingWeighs();
    } else {
      var m := SummaryInit(bars, ts, i, off);
      SummaryVolume(Init(bars), ts[..m], i, off);
      VolumeOfLast(bars, ts, m);
    }
  }

  lemma NothingWeighs()
    ensures Volume([]) == 0 == Total([])
  {
  }

  lemma VolumeOfLast(bars: seq<Bar>, ts: seq<Tick>, m: nat)
    requires bars != [] && m < |ts| && Last(bars).candle == Fold(ts[m..]) && Volume(Init(bars)) == Total(ts[..m])
    ensures Volume(bars) == Total(ts)
  {
    hide Fold, Plus, Total, Volume;
    VolumeLast(bars);
    FoldVolume(ts[m..]);
    TotalAppend(ts[..m], ts[m..]);
    assert ts == ts[..m] + ts[m..];
  }

  lemma FoldVolume(ts: seq<Tick>)
    requires ts != []
    ensures Fold(ts).volume == Total(ts)
  {
    FoldMeans(ts);
  }
}
