/** Rolling up bars of a gap-filled level: bars whose first child is a filler start from the close before
    them (internal/quotes/kline/agg.go). */
module Carrying {
  import opened Basics
  import opened Bytes
  import opened Candles
  import opened Watermark
  import opened Rollup
  import opened Summaries
  import opened InnerBuckets

  // ---- the reference -------------------------------------------------------------------------------

  /** The trades of earlier buckets, in their order. */
  ghost function Earlier(ts: seq<Tick>, i: int, off: int, b: int): seq<Tick>
    requires i > 0
    decreases |ts|
  {
    if ts == [] then []
    else Earlier(Init(ts), i, off, b) + (if BucketOf(Last(ts), i, off) < b then [Last(ts)] else [])
  }

  /** The candle of bucket b above levels filled at width g, directly from the trades: flat at the last
      price before when nothing was traded; otherwise the fold of the bucket's trades, preceded by that
      price if there were trades before and none in the first bucket of width g. */
  ghost function Carried(ts: seq<Tick>, i: int, off: int, g: int, b: int): Candle
    requires i > 0 && g > 0
  {
    Lead(Earlier(ts, i, off, b), Select(ts, i, off, b), Select(ts, g, off, Opening(b, i, g, off)) != [])
  }

  ghost function Lead(before: seq<Tick>, own: seq<Tick>, traded: bool): Candle {
    if own == [] then (if before == [] then Fold([]) else Flat(Last(before).price))
    else if before == [] || traded then Fold(own)
    else Join(Flat(Last(before).price), Fold(own))
  }

  ghost predicate CarriedBar(bar: Bar, ts: seq<Tick>, i: int, off: int, g: int)
    requires i > 0 && g > 0
  {
    && Aligned(bar.start, i, off)
    && (Select(ts, i, off, bar.start) != [] || Earlier(ts, i, off, bar.start) != [])
    && bar.candle == Carried(ts, i, off, g, bar.start)
  }

  /** In increasing order, a bar for every bucket with trades, none before the first trade, and each bar
      is the reference candle of its bucket. */
  ghost predicate Follows(bars: seq<Bar>, ts: seq<Tick>, i: int, off: int, g: int)
    requires i > 0 && g > 0
  {
    Rising(bars) && Complete(bars, ts, i, off) && forall x :: x in bars ==> CarriedBar(x, ts, i, off, g)
  }

  ghost predicate AllTraded(bars: seq<Bar>, ts: seq<Tick>, i: int, off: int)
    requires i > 0
  {
    forall x :: x in bars ==> Select(ts, i, off, x.start) != []
  }

  // ---- candles -------------------------------------------------------------------------------------

  lemma JoinFlat(a: Candle)
    requires a.low <= a.close <= a.high
    ensures Join(a, Flat(a.close)) == a
  {
    PlusZero(a.volume);
    hide Plus;
  }

  lemma LeadBounds(before: seq<Tick>, own: seq<Tick>, traded: bool)
    requires own != [] || before != []
    ensures var a := Lead(before, own, traded);
            a.low <= a.close <= a.high && a.close == if own == [] then Last(before).price else Last(own).price
  {
    if own != [] {
      FoldMeans(own);
    }
    hide Fold, Plus;
  }

  /** More trades for the same bar, seen by a child bar that may itself be led by the close before it. */
  lemma LeadJoins(before: seq<Tick>, own: seq<Tick>, traded: bool, more: seq<Tick>, traded': bool)
    requires own != [] || (before != [] && !traded)
    ensures Join(Lead(before, own, traded), Lead(before + own, more, traded')) == Lead(before, own + more, traded)
  {
    hide Fold, Plus, Join;
    LeadBounds(before, own, traded);
    var a := Lead(before, own, traded);
    assert Last(before + own).price == a.close;
    JoinFlat(a);
    if more == [] {
      assert own + more == own;
    } else {
      JoinAssociative(a, Flat(a.close), Fold(more));
      if own == [] {
        assert own + more == more;
      } else {
        FoldAppend(own, more);
        JoinAssociative(Flat(if before == [] then 0 else Last(before).price), Fold(own), Fold(more));
      }
    }
  }

  // ---- cutting off the last bucket -----------------------------------------------------------------

  ghost predicate AllIn(ts: seq<Tick>, i: int, off: int, b: int)
    requires i > 0
  {
    forall t :: t in ts ==> BucketOf(t, i, off) == b
  }

  lemma {:induction false} EarlierAppend(a: seq<Tick>, b: seq<Tick>, i: int, off: int, x: int)
    requires i > 0
    ensures Earlier(a + b, i, off, x) == Earlier(a, i, off, x) + Earlier(b, i, off, x)
    decreases |b|
  {
    hide BucketStart;
    if b == [] {
      assert a + b == a;
    } else {
      EarlierAppend(a, Init(b), i, off, x);
      assert Init(a + b) == a + Init(b);
    }
  }

  lemma {:induction false} EarlierEnds(ts: seq<Tick>, i: int, off: int, b: int)
    requires i > 0
    ensures AllBelow(ts, i, off, b) ==> Earlier(ts, i, off, b) == ts
    ensures (forall t :: t in ts ==> BucketOf(t, i, off) >= b) ==> Earlier(ts, i, off, b) == []
    decreases |ts|
  {
    hide BucketStart;
    if ts != [] {
      EarlierEnds(Init(ts), i, off, b);
      assert ts == Init(ts) + [Last(ts)];
      assert Last(ts) in ts;
    }
  }

  /** In sorted trades the last bucket is a suffix, and what is earlier is the rest. */
  lemma CutAt(ts: seq<Tick>, i: int, off: int, b: int) returns (m: nat)
    requires i > 0 && BucketSorted(ts, i, off) && forall t :: t in ts ==> BucketOf(t, i, off) <= b
    ensures m <= |ts| && ts[m..] == Select(ts, i, off, b) && ts[..m] == Earlier(ts, i, off, b)
    ensures AllIn(ts[m..], i, off, b) && AllBelow(ts[..m], i, off, b)
  {
    hide BucketStart, Select;
    m := CutLast(ts, i, off, b);
    SelectMembers(ts, i, off, b);
    assert ts == ts[..m] + ts[m..];
    EarlierAppend(ts[..m], ts[m..], i, off, b);
    EarlierEnds(ts[..m], i, off, b);
    EarlierEnds(ts[m..], i, off, b);
  }

  /** Trades of bucket c leave the earlier trades of b <= c and the own trades of b != c alone. */
  lemma CutBelow(ts: seq<Tick>, m: nat, i: int, off: int, c: int, b: int)
    requires i > 0 && m <= |ts| && AllIn(ts[m..], i, off, c) && b <= c
    ensures Earlier(ts, i, off, b) == Earlier(ts[..m], i, off, b)
    ensures Select(ts, i, off, b) == if b == c then Select(ts[..m], i, off, b) + ts[m..] else Select(ts[..m], i, off, b)
  {
    hide BucketStart, Select, Earlier;
    assert ts == ts[..m] + ts[m..];
    EarlierAppend(ts[..m], ts[m..], i, off, b);
    EarlierEnds(ts[m..], i, off, b);
    SelectAppend(ts[..m], ts[m..], i, off, b);
    SelectAll(ts[m..], i, off, b);
  }

  /** Trades outside the bucket of an opening leave the opening alone. */
  lemma OpeningSame(ts: seq<Tick>, m: nat, i: int, off: int, g: int, d: int, c: int, b: int)
    requires g > 0 && d > 0 && i == d * g > 0 && m <= |ts| && AllIn(ts[m..], i, off, c) && b != c && Aligned(b, i, off)
    ensures Select(ts, g, off, Opening(b, i, g, off)) == Select(ts[..m], g, off, Opening(b, i, g, off))
  {
    var o := Opening(b, i, g, off);
    forall t | t in ts[m..]
      ensures BucketOf(t, g, off) != o
    {
      InOpening(t.ts, b, i, g, d, off);
    }
    hide BucketStart, Select;
    assert ts == ts[..m] + ts[m..];
    SelectAppend(ts[..m], ts[m..], g, off, o);
    SelectAll(ts[m..], g, off, o);
  }

  lemma OpeningOwn(ts: seq<Tick>, i: int, off: int, g: int, d: int, b: int)
    requires g > 0 && d > 0 && i == d * g > 0 && Aligned(b, i, off) && Select(ts, i, off, b) == []
    ensures Select(ts, g, off, Opening(b, i, g, off)) == []
  {
    var o := Opening(b, i, g, off);
    SelectMembers(ts, i, off, b);
    forall t | t in ts
      ensures BucketOf(t, g, off) != o
    {
      InOpening(t.ts, b, i, g, d, off);
      assert BucketStart(t.ts, i, off) != b;
    }
    hide BucketStart, Select;
    SelectAll(ts, g, off, o);
  }

  lemma BarSame(bar: Bar, ts: seq<Tick>, m: nat, i: int, off: int, g: int, d: int, c: int)
    requires g > 0 && d > 0 && i == d * g > 0 && m <= |ts| && AllIn(ts[m..], i, off, c) && bar.start < c
    ensures CarriedBar(bar, ts, i, off, g) <==> CarriedBar(bar, ts[..m], i, off, g)
  {
    hide BucketStart, Select, Earlier, Lead;
    CutBelow(ts, m, i, off, c, bar.start);
    if Aligned(bar.start, i, off) {
      OpeningSame(ts, m, i, off, g, d, c, bar.start);
    }
  }

  /** Without its last bar, a list of bars follows the trades before that bar's bucket. */
  lemma FollowsInit(bars: seq<Bar>, ts: seq<Tick>, i: int, off: int, g: int, d: int) returns (m: nat)
    requires g > 0 && d > 0 && i == d * g > 0 && bars != []
    requires Follows(bars, ts, i, off, g) && BucketSorted(ts, i, off)
    ensures m <= |ts| && Follows(Init(bars), ts[..m], i, off, g) && BucketSorted(ts[..m], i, off)
    ensures ts[m..] == Select(ts, i, off, Last(bars).start) && ts[..m] == Earlier(ts, i, off, Last(bars).start)
    ensures AllIn(ts[m..], i, off, Last(bars).start) && AllBelow(ts[..m], i, off, Last(bars).start)
  {
    hide BucketStart, Select, Earlier, CarriedBar;
    LastIsLatest(bars, ts, i, off);
    m := CutAt(ts, i, off, Last(bars).start);
    CompleteInit(bars, ts, i, off, m);
    forall x | x in Init(bars)
      ensures CarriedBar(x, ts[..m], i, off, g)
    {
      var k :| 0 <= k < |bars| - 1 && bars[k] == x;
      BarSame(x, ts, m, i, off, g, d, Last(bars).start);
    }
  }

  lemma LastIsLatest(bars: seq<Bar>, ts: seq<Tick>, i: int, off: int)
    requires i > 0 && bars != [] && Rising(bars) && Complete(bars, ts, i, off)
    ensures forall t :: t in ts ==> BucketOf(t, i, off) <= Last(bars).start
  {
    hide BucketStart;
    forall t | t in ts
      ensures BucketOf(t, i, off) <= Last(bars).start
    {
      assert HasBar(bars, BucketOf(t, i, off));
    }
  }

  // ---- one more child ------------------------------------------------------------------------------

  lemma FollowsParts(bars: seq<Bar>, ts: seq<Tick>, i: int, off: int, g: int)
    requires i > 0 && g > 0 && Follows(bars, ts, i, off, g)
    ensures Rising(bars) && Complete(bars, ts, i, off)
    ensures bars != [] ==> CarriedBar(Last(bars), ts, i, off, g)
    ensures bars == [] ==> ts == []
  {
    hide BucketStart, CarriedBar;
    if bars == [] {
      NonEmptyHas(ts);
    } else {
      assert Last(bars) in bars;
    }
  }

  /** A filler between the last bar and the next bucket. */
  ghost predicate FillsAfter(f: Bar, closed: Bar, next: int, i: int, off: int)
    requires i > 0
  {
    closed.start < f.start < next && Aligned(f.start, i, off) && f.candle == Flat(closed.candle.close)
  }

  /** The close of the last bar is the last price. */
  lemma LastClose(bars: seq<Bar>, ts: seq<Tick>, i: int, off: int, g: int)
    requires i > 0 && g > 0 && Follows(bars, ts, i, off, g) && BucketSorted(ts, i, off) && bars != []
    ensures ts != [] && Last(bars).candle.close == Last(ts).price
  {
    hide BucketStart, Select, Earlier, Lead, Rising, Complete;
    var b := Last(bars).start;
    FollowsParts(bars, ts, i, off, g);
    LastIsLatest(bars, ts, i, off);
    var m := CutAt(ts, i, off, b);
    assert ts == ts[..m] + ts[m..];
    LeadBounds(ts[..m], ts[m..], Select(ts, g, off, Opening(b, i, g, off)) != []);
  }

  lemma FillerFollows(bars: seq<Bar>, f: Bar, ts: seq<Tick>, m: nat, i: int, off: int, g: int, next: int)
    requires i > 0 && g > 0 && m <= |ts| && bars != [] && Follows(bars, ts[..m], i, off, g)
    requires BucketSorted(ts[..m], i, off) && AllIn(ts[m..], i, off, next) && FillsAfter(f, Last(bars), next, i, off)
    ensures CarriedBar(f, ts, i, off, g)
  {
    hide BucketStart, Select, Earlier, CarriedBar;
    LastClose(bars, ts[..m], i, off, g);
    FollowsParts(bars, ts[..m], i, off, g);
    LastIsLatest(bars, ts[..m], i, off);
    hide Follows;
    FillerCarried(f, ts, m, i, off, g, next);
  }

  lemma FillerCarried(f: Bar, ts: seq<Tick>, m: nat, i: int, off: int, g: int, next: int)
    requires i > 0 && g > 0 && m <= |ts| && ts[..m] != [] && AllIn(ts[m..], i, off, next) && f.start < next
    requires forall t :: t in ts[..m] ==> BucketOf(t, i, off) < f.start
    requires Aligned(f.start, i, off) && f.candle == Flat(Last(ts[..m]).price)
    ensures CarriedBar(f, ts, i, off, g)
  {
    hide BucketStart, Select, Earlier;
    CutBelow(ts, m, i, off, next, f.start);
    EarlierEnds(ts[..m], i, off, f.start);
    SelectAll(ts[..m], i, off, f.start);
  }

  /** A new bar, and the fillers before it. */
  lemma OpenFollows(bars: seq<Bar>, fs: seq<Bar>, next: Bar, ts: seq<Tick>, m: nat, i: int, off: int, g: int, d: int)
    requires g > 0 && d > 0 && i == d * g > 0 && m <= |ts|
    requires Follows(bars, ts[..m], i, off, g) && BucketSorted(ts[..m], i, off)
    requires AllIn(ts[m..], i, off, next.start) && CarriedBar(next, ts, i, off, g)
    requires bars != [] ==> Last(bars).start < next.start
    requires if bars == [] then fs == [] else forall f :: f in fs ==> FillsAfter(f, Last(bars), next.start, i, off)
    requires Rising(bars + fs + [next])
    ensures Follows(bars + fs + [next], ts, i, off, g)
  {
    hide BucketStart, Select, Earlier, CarriedBar, FillsAfter, Rising;
    var all := bars + fs + [next];
    FollowsParts(bars, ts[..m], i, off, g);
    MoreHas(bars, fs, next);
    CompleteMore(bars, all, ts, m, i, off, next.start);
    forall x | x in all
      ensures CarriedBar(x, ts, i, off, g)
    {
      if x in bars {
        BelowLast(bars, x);
        BarSame(x, ts, m, i, off, g, d, next.start);
      } else if x in fs {
        FillerFollows(bars, x, ts, m, i, off, g, next.start);
      }
    }
  }

  lemma BelowLast(bars: seq<Bar>, x: Bar)
    requires Rising(bars) && x in bars
    ensures x.start <= Last(bars).start && (x.start == Last(bars).start ==> x == Last(bars))
    ensures x in Init(bars) ==> x.start < Last(bars).start
  {
    var k :| 0 <= k < |bars| && bars[k] == x;
    if x in Init(bars) {
      var j :| 0 <= j < |bars| - 1 && Init(bars)[j] == x;
      assert bars[j] == x;
    }
  }

  lemma MoreHas(bars: seq<Bar>, fs: seq<Bar>, next: Bar)
    ensures HasBar(bars + fs + [next], next.start)
    ensures forall b :: HasBar(bars, b) ==> HasBar(bars + fs + [next], b)
  {
    var all := bars + fs + [next];
    assert all[|bars| + |fs|] == next;
    forall b | HasBar(bars, b)
      ensures HasBar(all, b)
    {
      var k :| 0 <= k < |bars| && bars[k].start == b;
      assert all[k].start == b;
    }
  }

  /** More of the last bar's bucket, none of it in the opening unless the opening had a trade already. */
  lemma MergeFollows(bars: seq<Bar>, next: Bar, ts: seq<Tick>, m: nat, i: int, off: int, g: int, d: int, led: bool)
    requires g > 0 && d > 0 && i == d * g > 0 && m <= |ts| && bars != []
    requires Follows(bars, ts[..m], i, off, g) && BucketSorted(ts[..m], i, off)
    requires next.start == Last(bars).start && AllIn(ts[m..], i, off, next.start)
    requires next.candle == Join(Last(bars).candle, Lead(ts[..m], ts[m..], led))
    requires var o := Opening(next.start, i, g, off); Select(ts, g, off, o) != [] <==> Select(ts[..m], g, off, o) != []
    ensures Follows(Init(bars) + [next], ts, i, off, g)
  {
    hide BucketStart, Select, Earlier, CarriedBar, Rising, Join, Lead;
    var all := Init(bars) + [next];
    FollowsParts(bars, ts[..m], i, off, g);
    ReplacedLast(bars, next);
    CompleteMore(bars, all, ts, m, i, off, next.start);
    MergedBar(bars, next, ts, m, i, off, g, d, led);
    forall x | x in all
      ensures CarriedBar(x, ts, i, off, g)
    {
      if x in Init(bars) {
        assert x in bars;
        BelowLast(bars, x);
        BarSame(x, ts, m, i, off, g, d, next.start);
      }
    }
  }

  lemma MergedBar(bars: seq<Bar>, next: Bar, ts: seq<Tick>, m: nat, i: int, off: int, g: int, d: int, led: bool)
    requires g > 0 && d > 0 && i == d * g > 0 && m <= |ts| && bars != []
    requires Follows(bars, ts[..m], i, off, g) && BucketSorted(ts[..m], i, off)
    requires next.start == Last(bars).start && AllIn(ts[m..], i, off, next.start)
    requires next.candle == Join(Last(bars).candle, Lead(ts[..m], ts[m..], led))
    requires var o := Opening(next.start, i, g, off); Select(ts, g, off, o) != [] <==> Select(ts[..m], g, off, o) != []
    ensures CarriedBar(next, ts, i, off, g)
  {
    hide BucketStart, Select, Earlier, Rising, Join, Lead, Complete;
    var b := next.start;
    FollowsParts(bars, ts[..m], i, off, g);
    LastIsLatest(bars, ts[..m], i, off);
    var k := CutAt(ts[..m], i, off, b);
    CutBelow(ts, m, i, off, b, b);
    var before, own := Earlier(ts[..m], i, off, b), Select(ts[..m], i, off, b);
    assert before + own == ts[..m];
    if own == [] {
      OpeningOwn(ts[..m], i, off, g, d, b);
    }
    LeadJoins(before, own, Select(ts[..m], g, off, Opening(b, i, g, off)) != [], ts[m..], led);
  }

  // ---- rolling up ----------------------------------------------------------------------------------

  /** What the width of the openings becomes one level up: it stays when the children leave no gap, and
      is the whole bucket when every child has trades. */
  ghost predicate Grained(children: seq<Bar>, ts: seq<Tick>, i: int, off: int, g: int, grain: int, big: int)
    requires i > 0
  {
    (grain == g && Gapless(children, i)) || (g == i && grain == big && AllTraded(children, ts, i, off))
  }

  lemma GrainedInit(children: seq<Bar>, ts: seq<Tick>, m: nat, i: int, off: int, g: int, grain: int, big: int)
    requires i > 0 && children != [] && m <= |ts| && Rising(children) && Grained(children, ts, i, off, g, grain, big)
    requires AllIn(ts[m..], i, off, Last(children).start)
    ensures Grained(Init(children), ts[..m], i, off, g, grain, big)
  {
    if AllTraded(children, ts, i, off) {
      hide BucketStart, Select, Earlier, Rising;
      forall x | x in Init(children)
        ensures Select(ts[..m], i, off, x.start) != []
      {
        assert x in children;
        BelowLast(children, x);
        CutBelow(ts, m, i, off, Last(children).start, x.start);
      }
    }
  }

  /** The bar a child opens is led as the child is. */
  lemma OpenedLead(children: seq<Bar>, ts: seq<Tick>, m: nat, i: int, n: int, big: int, off: int, g: int, grain: int)
    requires i > 0 && n > 0 && big == n * i > 0 && 0 < g <= i && grain > 0 && children != [] && m <= |ts|
    requires Grained(children, ts, i, off, g, grain, big) && Aligned(Last(children).start, i, off)
    requires ts[m..] == Select(ts, i, off, Last(children).start)
    requires AllIn(ts[m..], big, off, BucketStart(Last(children).start, big, off))
    requires if Init(children) == [] then ts[..m] == []
             else BucketStart(Last(Init(children)).start, big, off) < BucketStart(Last(children).start, big, off)
    ensures var c := Last(children).start; var bs := BucketStart(c, big, off);
            Lead(ts[..m], ts[m..], Select(ts, g, off, Opening(c, i, g, off)) != [])
            == Lead(ts[..m], ts[m..], Select(ts, grain, off, Opening(bs, big, grain, off)) != [])
  {
    var c := Last(children).start;
    var bs := BucketStart(c, big, off);
    hide BucketStart, Select;
    if grain == g && Gapless(children, i) {
      if Init(children) != [] {
        assert Last(Init(children)).start == c - i;
        ChildStep(c, i, n, big, off);
        Scale(1, n, i);
        OpeningOfOpening(bs, big, i, g, off);
      }
    } else if ts[m..] != [] {
      OwnNotEmpty(ts, m, big, off, bs);
    }
  }

  lemma OwnNotEmpty(ts: seq<Tick>, m: nat, i: int, off: int, b: int)
    requires i > 0 && m < |ts| && AllIn(ts[m..], i, off, b)
    ensures Select(ts, i, off, b) != []
  {
    hide BucketStart, Select;
    CutBelow(ts, m, i, off, b, b);
  }

  /** A child that joins a bar does not change whether its opening has a trade. */
  lemma MergedOpening(children: seq<Bar>, ts: seq<Tick>, m: nat, i: int, n: int, big: int, off: int, g: int, d: int,
                      grain: int)
    requires i > 0 && n > 0 && big == n * i > 0 && g > 0 && d > 0 && i == d * g && grain > 0
    requires |children| > 1 && m <= |ts| && Rising(children)
    requires Grained(children, ts, i, off, g, grain, big)
    requires Aligned(Last(children).start, i, off) && Aligned(Last(Init(children)).start, i, off)
    requires AllIn(ts[m..], i, off, Last(children).start)
    requires BucketStart(Last(Init(children)).start, big, off) == BucketStart(Last(children).start, big, off)
    ensures var bs := BucketStart(Last(children).start, big, off); var o := Opening(bs, big, grain, off);
            Select(ts, grain, off, o) != [] <==> Select(ts[..m], grain, off, o) != []
  {
    var c, c' := Last(children).start, Last(Init(children)).start;
    var bs := BucketStart(c, big, off);
    assert c' < c;
    if grain == g && Gapless(children, i) {
      OpeningFirst(c', i, n, big, off);
      StartAligned(c, big, off);
      AlignedUp(bs, i, n, off);
      Scale(1, n, i);
      Scale(1, d, g);
      hide BucketStart, Select;
      OpeningOfOpening(bs, big, i, g, off);
      OpeningSame(ts, m, i, off, g, d, c, Opening(bs, big, i, off));
    } else {
      assert Last(Init(children)) in children;
      hide Select;
      ChildTrades(ts, m, i, n, big, off, c', c);
      assert Opening(bs, big, grain, off) == bs;
    }
  }

  lemma ChildTrades(ts: seq<Tick>, m: nat, i: int, n: int, big: int, off: int, b: int, c: int)
    requires i > 0 && n > 0 && big == n * i > 0 && m <= |ts| && b < c && AllIn(ts[m..], i, off, c)
    requires Select(ts, i, off, b) != [] && Aligned(b, i, off)
    ensures Select(ts, big, off, BucketStart(b, big, off)) != []
    ensures Select(ts[..m], big, off, BucketStart(b, big, off)) != []
  {
    hide BucketStart, Select;
    CutBelow(ts, m, i, off, c, b);
    Nested(ts, i, n, big, off, b);
    Nested(ts[..m], i, n, big, off, b);
  }

  lemma Nested(ts: seq<Tick>, i: int, n: int, big: int, off: int, b: int)
    requires i > 0 && n > 0 && big == n * i > 0 && Select(ts, i, off, b) != []
    ensures Select(ts, big, off, BucketStart(b, big, off)) != []
  {
    var t := Select(ts, i, off, b)[0];
    SelectMembers(ts, i, off, b);
    SelectMembers(ts, big, off, BucketStart(b, big, off));
    BucketsNest(t.ts, i, n, off);
    hide BucketStart, Select;
    assert t in ts;
  }

  lemma NestedAll(ts: seq<Tick>, i: int, n: int, big: int, off: int, b: int)
    requires i > 0 && n > 0 && big == n * i > 0 && AllIn(ts, i, off, b)
    ensures AllIn(ts, big, off, BucketStart(b, big, off))
  {
    if ts != [] {
      NestedBuckets(ts, b, i, n, off);
    }
  }

  /** The fillers of a rollup lie between the closed bar and the next bucket. */
  lemma GapFills(cfg: RollConfig, closed: Bar, child: Bar, prev: int)
    requires cfg.interval > 0 && closed.start == BucketStart(prev, cfg.interval, cfg.offset)
    requires closed.start < BucketStart(child.start, cfg.interval, cfg.offset)
    ensures forall f :: f in Gap(cfg, closed, child) ==>
              FillsAfter(f, closed, BucketStart(child.start, cfg.interval, cfg.offset), cfg.interval, cfg.offset)
  {
    var i, bs := cfg.interval, BucketStart(child.start, cfg.interval, cfg.offset);
    var k := BucketsApart(prev, child.start, i, cfg.offset);
    assert k * i == i + (k - 1) * i;
    StartAligned(prev, i, cfg.offset);
    var q := Units(closed.start, i, cfg.offset);
    hide BucketStart, Fillers;
    FillersAre(cfg, child.symbol, closed.candle.close, closed.start + i, bs, k - 1);
    var fs := Gap(cfg, closed, child);
    forall j | 0 <= j < |fs|
      ensures FillsAfter(fs[j], closed, bs, i, cfg.offset)
    {
      Scale(0, j, i);
      Scale(j, k - 1, i);
      assert (q + 1 + j) * i == q * i + i + j * i;
      UnitsAligned(q + 1 + j, i, cfg.offset);
    }
  }

  lemma OpensNext(cfg: RollConfig, children: seq<Bar>, ts: seq<Tick>, m: nat, i: int, n: int, g: int, grain: int, d: int)
    requires i > 0 && n > 0 && cfg.interval == n * i > 0 && 0 < g <= i && grain > 0 && d > 0 && cfg.interval == d * grain
    requires children != [] && Rising(children) && m <= |ts| && Grained(children, ts, i, cfg.offset, g, grain, cfg.interval)
    requires CarriedBar(Last(children), ts, i, cfg.offset, g)
    requires ts[m..] == Select(ts, i, cfg.offset, Last(children).start) && AllIn(ts[m..], i, cfg.offset, Last(children).start)
    requires ts[..m] == Earlier(ts, i, cfg.offset, Last(children).start) && BucketSorted(ts[..m], cfg.interval, cfg.offset)
    requires Follows(RollClosed(cfg, Init(children)), ts[..m], cfg.interval, cfg.offset, grain)
    requires var bs := BucketStart(Last(children).start, cfg.interval, cfg.offset);
             if Init(children) == [] then ts[..m] == []
             else BucketStart(Last(Init(children)).start, cfg.interval, cfg.offset) < bs
    ensures Follows(RollClosed(cfg, children), ts, cfg.interval, cfg.offset, grain)
  {
    hide BucketStart, Select, Earlier, CarriedBar, FillsAfter, RollClosed, Follows, Rising, Lead, Gap, Grained;
    var off, big, before := cfg.offset, cfg.interval, RollClosed(cfg, Init(children));
    var child, bs := Last(children), BucketStart(Last(children).start, cfg.interval, cfg.offset);
    RollGrows(cfg, children);
    RollShape(cfg, children);
    hide Shaped;
    ShapeRises(cfg, RollClosed(cfg, children));
    NestedAll(ts[m..], i, n, big, off, child.start);
    FollowsParts(before, ts[..m], big, off, grain);
    if before != [] {
      LastIsLatest(before, ts[..m], big, off);
    }
    OpenedCarried(cfg, children, ts, m, i, n, g, grain);
    var fs := if Init(children) == [] then [] else Gap(cfg, Last(before), child);
    if Init(children) != [] {
      GapFills(cfg, Last(before), child, Last(Init(children)).start);
    }
    assert [] + [] + [Opened(cfg, child, bs)] == [Opened(cfg, child, bs)];
    OpenFollows(before, fs, Opened(cfg, child, bs), ts, m, big, off, grain, d);
  }

  lemma ShapeRises(cfg: RollConfig, bars: seq<Bar>)
    requires Shaped(cfg, bars)
    ensures Rising(bars)
  {
  }

  lemma OpenedCarried(cfg: RollConfig, children: seq<Bar>, ts: seq<Tick>, m: nat, i: int, n: int, g: int, grain: int)
    requires i > 0 && n > 0 && cfg.interval == n * i > 0 && 0 < g <= i && grain > 0 && children != [] && m <= |ts|
    requires Grained(children, ts, i, cfg.offset, g, grain, cfg.interval)
    requires CarriedBar(Last(children), ts, i, cfg.offset, g)
    requires ts[m..] == Select(ts, i, cfg.offset, Last(children).start)
    requires ts[..m] == Earlier(ts, i, cfg.offset, Last(children).start)
    requires var bs := BucketStart(Last(children).start, cfg.interval, cfg.offset);
             && AllIn(ts[m..], cfg.interval, cfg.offset, bs)
             && (forall t :: t in ts[..m] ==> BucketOf(t, cfg.interval, cfg.offset) < bs)
             && if Init(children) == [] then ts[..m] == []
                else BucketStart(Last(Init(children)).start, cfg.interval, cfg.offset) < bs
    ensures CarriedBar(Opened(cfg, Last(children), BucketStart(Last(children).start, cfg.interval, cfg.offset)),
                       ts, cfg.interval, cfg.offset, grain)
  {
    hide BucketStart, Select, Earlier, Lead, Grained;
    var off, big, c := cfg.offset, cfg.interval, Last(children).start;
    var bs := BucketStart(c, big, off);
    StartAligned(c, big, off);
    OpenedLead(children, ts, m, i, n, big, off, g, grain);
    CutBelow(ts, m, big, off, bs, bs);
    EarlierEnds(ts[..m], big, off, bs);
    SelectAll(ts[..m], big, off, bs);
    assert [] + ts[m..] == ts[m..];
  }

  /** Rolling a level up keeps it the reference: the candles of the coarser level are, trade by trade and
      close by close, those of its buckets. */
  lemma {:induction false} RollFollows(cfg: RollConfig, children: seq<Bar>, ts: seq<Tick>, i: int, n: int, g: int, e: int,
                                       grain: int, d: int)
    requires i > 0 && n > 0 && cfg.interval == n * i > 0 && g > 0 && e > 0 && i == e * g && d > 0 && cfg.interval == d * grain
    requires grain > 0 && Grained(children, ts, i, cfg.offset, g, grain, cfg.interval)
    requires Follows(children, ts, i, cfg.offset, g) && BucketSorted(ts, i, cfg.offset)
    ensures Follows(RollClosed(cfg, children), ts, cfg.interval, cfg.offset, grain)
    decreases |children|
  {
    hide BucketStart, Select, Earlier, CarriedBar, RollClosed, Follows, Rising, Grained, BucketSorted;
    FollowsParts(children, ts, i, cfg.offset, g);
    if children == [] {
      FollowsNothing(cfg, grain);
    } else {
      Scale(1, e, g);
      var m := FollowsInit(children, ts, i, cfg.offset, g, e);
      GrainedInit(children, ts, m, i, cfg.offset, g, grain, cfg.interval);
      RollFollows(cfg, Init(children), ts[..m], i, n, g, e, grain, d);
      SortedNests(ts[..m], i, n, cfg.offset);
      FollowsParts(Init(children), ts[..m], i, cfg.offset, g);
      RollGrows(cfg, children);
      if Init(children) == []
         || BucketStart(Last(Init(children)).start, cfg.interval, cfg.offset)
            < BucketStart(Last(children).start, cfg.interval, cfg.offset) {
        OpensNext(cfg, children, ts, m, i, n, g, grain, d);
      } else {
        JoinsLast(cfg, children, ts, m, i, n, g, e, grain, d);
      }
    }
  }

  lemma FollowsNothing(cfg: RollConfig, grain: int)
    requires cfg.interval > 0 && grain > 0
    ensures Follows(RollClosed(cfg, []), [], cfg.interval, cfg.offset, grain)
  {
    hide BucketStart;
  }

  lemma JoinsLast(cfg: RollConfig, children: seq<Bar>, ts: seq<Tick>, m: nat, i: int, n: int, g: int, e: int,
                  grain: int, d: int)
    requires i > 0 && n > 0 && cfg.interval == n * i > 0 && g > 0 && e > 0 && i == e * g && d > 0 && cfg.interval == d * grain
    requires |children| > 1 && Rising(children) && m <= |ts| && grain > 0
    requires Grained(children, ts, i, cfg.offset, g, grain, cfg.interval)
    requires CarriedBar(Last(children), ts, i, cfg.offset, g) && CarriedBar(Last(Init(children)), ts[..m], i, cfg.offset, g)
    requires ts[m..] == Select(ts, i, cfg.offset, Last(children).start) && AllIn(ts[m..], i, cfg.offset, Last(children).start)
    requires ts[..m] == Earlier(ts, i, cfg.offset, Last(children).start) && BucketSorted(ts[..m], cfg.interval, cfg.offset)
    requires Follows(RollClosed(cfg, Init(children)), ts[..m], cfg.interval, cfg.offset, grain)
    requires BucketStart(Last(Init(children)).start, cfg.interval, cfg.offset)
             == BucketStart(Last(children).start, cfg.interval, cfg.offset)
    ensures Follows(RollClosed(cfg, children), ts, cfg.interval, cfg.offset, grain)
  {
    hide BucketStart, Select, Earlier, RollClosed, Follows, Rising, Lead, Grained, BucketSorted, Join;
    var off, big, before := cfg.offset, cfg.interval, RollClosed(cfg, Init(children));
    RollGrows(cfg, children);
    NestedAll(ts[m..], i, n, big, off, Last(children).start);
    MergedOpening(children, ts, m, i, n, big, off, g, e, grain);
    MergeFollows(before, Merged(Last(before), Last(children)), ts, m, big, off, grain, d,
                 Select(ts, g, off, Opening(Last(children).start, i, g, off)) != []);
  }

  // ---- levels without gaps -------------------------------------------------------------------------

  /** A summary follows its trades with whole buckets as openings. */
  lemma SummaryFollows(bars: seq<Bar>, ts: seq<Tick>, i: int, off: int)
    requires i > 0 && Summarises(bars, ts, i, off)
    ensures Follows(bars, ts, i, off, i) && AllTraded(bars, ts, i, off)
  {
    forall x | x in bars
      ensures CarriedBar(x, ts, i, off, i) && Select(ts, i, off, x.start) != []
    {
      var k :| 0 <= k < |bars| && bars[k] == x;
      SelectMembers(ts, i, off, x.start);
      var t := Select(ts, i, off, x.start)[0];
      hide Fold, Select, Earlier;
      assert t in ts;
      StartAligned(t.ts, i, off);
    }
    hide BucketStart, Fold, Select, Earlier;
  }

  lemma {:induction false} NoGapToFill(cfg: RollConfig, children: seq<Bar>, i: int, n: int)
    requires i > 0 && n > 0 && cfg.interval == n * i > 0 && Rising(children) && Gapless(children, i)
    requires forall x :: x in children ==> Aligned(x.start, i, cfg.offset)
    ensures RollRun(cfg, children) == RollRun(cfg.(fill := true), children)
    decreases |children|
  {
    hide BucketStart, Fillers, Rising, RollRun;
    RunNothing(cfg);
    RunNothing(cfg.(fill := true));
    if children != [] {
      NoGapInit(children, i);
      NoGapToFill(cfg, Init(children), i, n);
      RunLast(cfg, children);
      RunLast(cfg.(fill := true), children);
      if Init(children) != [] {
        CurIsLastBucket(cfg, Init(children));
        var c := Last(children).start;
        assert Last(children) in children && c - i == Last(Init(children)).start;
        ChildStep(c, i, n, cfg.interval, cfg.offset);
        SameOffer(cfg, RollRun(cfg, Init(children)).0.value, Last(children));
      } else {
        FirstBar(cfg, Last(children));
        FirstBar(cfg.(fill := true), Last(children));
      }
    }
  }

  lemma NoGapInit(children: seq<Bar>, i: int)
    requires children != [] && Rising(children) && Gapless(children, i)
    ensures Rising(Init(children)) && Gapless(Init(children), i) && forall x :: x in Init(children) ==> x in children
  {
  }

  lemma RunLast(cfg: RollConfig, children: seq<Bar>)
    requires cfg.interval > 0 && children != []
    ensures var (cur, out) := RollRun(cfg, Init(children));
            var (cur', es) := RollOffer(cfg, cur, Last(children));
            RollRun(cfg, children) == (cur', out + es)
  {
    hide RollOffer;
  }

  lemma RunNothing(cfg: RollConfig)
    requires cfg.interval > 0
    ensures RollRun(cfg, []) == (None, [])
  {
  }

  lemma SameOffer(cfg: RollConfig, cb: Bar, child: Bar)
    requires cfg.interval > 0 && BucketStart(child.start, cfg.interval, cfg.offset) <= cb.start + cfg.interval
    ensures RollOffer(cfg, Some(cb), child) == RollOffer(cfg.(fill := true), Some(cb), child)
  {
    hide BucketStart;
    assert [cb] + [] == [cb];
  }

  /** Above a level without gaps there are none, filled or not. */
  lemma RollGapless(cfg: RollConfig, children: seq<Bar>, ts: seq<Tick>, i: int, n: int, g: int)
    requires i > 0 && n > 0 && cfg.interval == n * i > 0 && g > 0
    requires Follows(children, ts, i, cfg.offset, g) && Gapless(children, i)
    ensures Gapless(RollClosed(cfg, children), cfg.interval)
  {
    hide BucketStart, Select, Earlier, Lead, Rising, Complete, RollRun;
    NoGapToFill(cfg, children, i, n);
    RollShape(cfg.(fill := true), children);
  }

  /** The close a bar starts from is the last price before its bucket, and only the first bar has none. */
  lemma {:induction false} CloseBefore(bars: seq<Bar>, ts: seq<Tick>, i: int, off: int, g: int, d: int, k: nat)
    requires g > 0 && d > 0 && i == d * g > 0 && k < |bars|
    requires Follows(bars, ts, i, off, g) && BucketSorted(ts, i, off)
    ensures var before := Earlier(ts, i, off, bars[k].start);
            if k == 0 then before == [] else before != [] && bars[k - 1].candle.close == Last(before).price
    decreases |bars|
  {
    hide BucketStart, Select, Earlier, CarriedBar, Follows, BucketSorted;
    var m := FollowsInit(bars, ts, i, off, g, d);
    FollowsParts(bars, ts, i, off, g);
    FollowsParts(Init(bars), ts[..m], i, off, g);
    if k == |bars| - 1 {
      if k > 0 {
        LastClose(Init(bars), ts[..m], i, off, g);
      }
    } else {
      CloseBefore(Init(bars), ts[..m], i, off, g, d, k);
      CutBelow(ts, m, i, off, Last(bars).start, bars[k].start);
    }
  }

  /** What bar k says of its bucket: nothing traded, flat at the close before; otherwise the fold of the
      trades, led by the close before unless it is the first bar or its opening has a trade. */
  ghost predicate BarMeans(bars: seq<Bar>, ts: seq<Tick>, i: int, off: int, g: int, k: nat)
    requires i > 0 && g > 0 && k < |bars|
  {
    var own := Select(ts, i, off, bars[k].start);
    var direct := k == 0 || Select(ts, g, off, Opening(bars[k].start, i, g, off)) != [];
    && (own == [] ==> k > 0 && bars[k].candle == Flat(bars[k - 1].candle.close))
    && (own != [] && direct ==> bars[k].candle == Fold(own))
    && (own != [] && !direct ==> bars[k].candle == Join(Flat(bars[k - 1].candle.close), Fold(own)))
  }

  lemma FollowsMeans(bars: seq<Bar>, ts: seq<Tick>, i: int, off: int, g: int, d: int, k: nat)
    requires g > 0 && d > 0 && i == d * g > 0 && k < |bars|
    requires Follows(bars, ts, i, off, g) && BucketSorted(ts, i, off)
    ensures BarMeans(bars, ts, i, off, g, k)
  {
    CloseBefore(bars, ts, i, off, g, d, k);
    assert bars[k] in bars;
    hide BucketStart, Select, Earlier, Fold, Join, BucketSorted, Rising, Complete;
  }

  /** A bar with trades equals direct aggregation exactly when it is the first bar, its opening has a trade,
      or the close before is the price of its first trade. */
  lemma DirectIff(bars: seq<Bar>, ts: seq<Tick>, i: int, off: int, g: int, k: nat)
    requires i > 0 && g > 0 && k < |bars| && BarMeans(bars, ts, i, off, g, k)
    requires Select(ts, i, off, bars[k].start) != []
    ensures var own := Select(ts, i, off, bars[k].start);
            bars[k].candle == Fold(own) <==>
            || k == 0 || Select(ts, g, off, Opening(bars[k].start, i, g, off)) != []
            || bars[k - 1].candle.close == own[0].price
  {
    var own := Select(ts, i, off, bars[k].start);
    FoldMeans(own);
    PlusZero(Fold(own).volume);
    hide Fold, Select, BucketStart, Plus;
  }
}
